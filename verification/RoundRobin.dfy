/** The weighted round-robin scheduler that chooses the next group of the fair queue. */
module RoundRobin {
  import opened Names

  datatype Node = Node(key: Name, weight: int)

  ghost predicate DistinctKeys(nodes: seq<Node>) {
    forall i, j | 0 <= i < j < |nodes| :: nodes[i].key != nodes[j].key
  }

  ghost predicate PositiveWeights(nodes: seq<Node>) {
    forall i | 0 <= i < |nodes| :: nodes[i].weight > 0
  }

  ghost predicate UnitWeights(nodes: seq<Node>) {
    forall i | 0 <= i < |nodes| :: nodes[i].weight == 1
  }

  /** `m` is the largest weight, if there is any node. */
  ghost predicate IsHeaviest(nodes: seq<Node>, m: int) {
    && (forall j | 0 <= j < |nodes| :: nodes[j].weight <= m)
    && (nodes != [] ==> exists j :: 0 <= j < |nodes| && nodes[j].weight == m)
  }

  function KeysOf(nodes: seq<Node>): set<Name> {
    set i | 0 <= i < |nodes| :: nodes[i].key
  }

  /** The remainder with the sign of the dividend. */
  function Rem(x: int, y: int): int
    requires y > 0
  {
    if x >= 0 then x % y else -((-x) % y)
  }

  /** The position after `i` in a circle of `n`. */
  function Succ(i: int, n: nat): (r: nat)
    requires n > 0 && -1 <= i < n
    ensures r < n
  {
    if i + 1 < n then i + 1 else 0
  }

  /** How many steps lead from `i` to `x` on a circle of `n`; a full round if `x` is `i`. */
  function Distance(i: int, x: nat, n: nat): (d: nat)
    requires -1 <= i < n && x < n
    ensures 1 <= d <= n
  {
    if i < x then x - i else x + n - i
  }

  function Without(s: seq<Node>, r: nat): seq<Node>
    requires r < |s|
  {
    s[..r] + s[r + 1..]
  }

  /** The node `ref` was taken out of position `r`, and the position moved back if it was at or
      behind it. */
  ghost predicate RemovedAt(was: seq<Node>, at: int, ref: Name, r: nat, now: seq<Node>, at': int) {
    r < |was| && was[r].key == ref && now == Without(was, r) && at' == if at >= r then at - 1 else at
  }

  class WeightedRoundRobin {
    var nodes: seq<Node>
    var keySet: set<Name>
    var n: int
    var gcd: int
    var maxW: int
    var i: int
    var cw: int

    constructor ()
      ensures Valid() && Unit() && nodes == [] && i == 0
    {
      nodes, keySet, n, gcd, maxW, i, cw := [], {}, 0, 0, 0, 0, 0;
    }

    ghost predicate Valid()
      reads this
    {
      && n == |nodes| && DistinctKeys(nodes) && PositiveWeights(nodes) && keySet == KeysOf(nodes)
      && IsHeaviest(nodes, maxW)
      && (n > 0 ==> gcd > 0 && -1 <= i < n && cw <= maxW)
      && (n == 0 ==> cw == 0 && -1 <= gcd <= 0 && maxW == gcd && i == gcd)
    }

    /** Every weight is one, as in the fair queue. */
    ghost predicate Unit()
      reads this
    {
      UnitWeights(nodes) && 0 <= cw <= 1 && (nodes != [] ==> gcd == 1 && maxW == 1) && (nodes == [] ==> cw == 0)
    }

    method Gcd(x: int, y: int) returns (r: int)
      requires y > 0 && -1 <= x
      ensures r > 0 && (y == 1 ==> r == 1) && (x == -1 ==> r == y)
      decreases y
    {
      var t := Rem(x, y);
      if t > 0 {
        r := Gcd(y, t);
      } else {
        r := y;
      }
    }

    /** `Next`: some key whose weight reaches the current weight. The loop ends at the latest at a
        node of maximal weight. With unit weights it is a plain round robin, except that a single
        node is returned without moving. */
    method Next() returns (key: Name)
      requires Valid()
      modifies this`i, this`cw
      ensures Valid() && (old(Unit()) ==> Unit())
      ensures n == 0 ==> key == NO_NAME
      ensures n > 0 ==> key in keySet
      ensures n == 1 ==> i == old(i) && key == nodes[0].key
      ensures n > 1 ==> 0 <= i < n && key == nodes[i].key && nodes[i].weight >= cw
      ensures n > 1 && old(Unit()) ==> i == Succ(old(i), n)
    {
      if n == 0 {
        return NO_NAME;
      }
      if n == 1 {
        return nodes[0].key;
      }
      GoOn();
      key := nodes[i].key;
    }

    /** The loop of `Next`, for more than one node. */
    method GoOn()
      requires Valid() && n > 1
      modifies this`i, this`cw
      ensures Valid() && (old(Unit()) ==> Unit()) && 0 <= i < n && nodes[i].weight >= cw
      ensures old(Unit()) ==> i == Succ(old(i), n)
    {
      ghost var heaviest :| 0 <= heaviest < |nodes| && nodes[heaviest].weight == maxW;
      ghost var left := n + 1;
      var found := false;
      while !found
        invariant Valid() && (old(Unit()) ==> Unit())
        invariant !found && left == n + 1 ==> i == old(i)
        invariant !found && left <= n ==> left == Distance(i, heaviest, n) && !UnitWeights(nodes)
        invariant 0 <= left <= n + 1
        invariant found ==> 0 <= i < n && nodes[i].weight >= cw
        invariant found && old(Unit()) ==> i == Succ(old(i), n)
        decreases left, !found
      {
        found := Advance(heaviest);
        if !found { left := Distance(i, heaviest, n); }
      }
    }

    /** One turn of the loop of `Next`: moves on by one and says whether the node there is chosen. */
    method Advance(ghost heaviest: int) returns (chosen: bool)
      requires Valid() && n > 1 && 0 <= heaviest < |nodes| && nodes[heaviest].weight == maxW
      modifies this`i, this`cw
      ensures Valid() && (old(Unit()) ==> Unit())
      ensures i == Succ(old(i), n)
      ensures chosen <==> nodes[i].weight >= cw
      ensures !chosen ==> i != heaviest && !UnitWeights(nodes)
      ensures !chosen && old(i) != heaviest ==> Distance(i, heaviest, n) < Distance(old(i), heaviest, n)
    {
      Wraps(i, n);
      i := Rem(i + 1, n);
      if i == 0 {
        cw := cw - gcd;
        if cw <= 0 {
          // Positive, so the scheduler never gives up here.
          cw := maxW;
        }
      }
      chosen := nodes[i].weight >= cw;
    }

    lemma Wraps(was: int, n: int)
      requires n > 0 && -1 <= was < n
      ensures Rem(was + 1, n) == Succ(was, n)
    {
      if was + 1 < n {
        SmallRem(was + 1, n);
      }
    }

    lemma SmallRem(a: nat, n: nat)
      requires a < n
      ensures a % n == a
    {
    }

    /** `Add`, for positive weights. */
    method Add(ref: Name, weight: int)
      requires Valid() && weight > 0
      modifies this
      ensures Valid()
      ensures ref in old(keySet) ==> nodes == old(nodes) && i == old(i)
      ensures ref !in old(keySet) ==>
        nodes == old(nodes) + [Node(ref, weight)] && i == if old(n) > 0 then old(i) else -1
      ensures old(Unit()) && weight == 1 ==> Unit()
    {
      if ref in keySet {
        return;
      }
      if gcd == 0 {
        gcd := weight;
        maxW := weight;
        i := -1;
        cw := 0;
      } else {
        gcd := Gcd(gcd, weight);
        if maxW < weight {
          maxW := weight;
        }
      }
      ghost var before := nodes;
      nodes := nodes + [Node(ref, weight)];
      keySet := keySet + {ref};
      n := n + 1;
      AppendFacts(before, Node(ref, weight));
    }

    lemma AppendFacts(s: seq<Node>, x: Node)
      requires DistinctKeys(s) && PositiveWeights(s) && x.weight > 0 && x.key !in KeysOf(s)
      ensures KeysOf(s + [x]) == KeysOf(s) + {x.key}
      ensures DistinctKeys(s + [x]) && PositiveWeights(s + [x])
      ensures UnitWeights(s + [x]) <==> UnitWeights(s) && x.weight == 1
      ensures forall m | IsHeaviest(s, m) :: IsHeaviest(s + [x], if s == [] || m < x.weight then x.weight else m)
    {
      var t := s + [x];
      assert t[|s|] == x && forall j | 0 <= j < |s| :: t[j] == s[j];
      forall k | k in KeysOf(s) ensures k in KeysOf(t) {
        var j :| 0 <= j < |s| && s[j].key == k;
        assert t[j].key == k;
      }
      forall m | IsHeaviest(s, m) ensures IsHeaviest(t, if s == [] || m < x.weight then x.weight else m) {
        if s != [] && x.weight <= m {
          var j :| 0 <= j < |s| && s[j].weight == m;
          assert t[j].weight == m;
        }
      }
    }

    /** `weightMax`. */
    method WeightMax() returns (m: int)
      requires PositiveWeights(nodes)
      ensures IsHeaviest(nodes, m) && (nodes == [] ==> m == -1)
    {
      m := -1;
      for j := 0 to |nodes|
        invariant forall k | 0 <= k < j :: nodes[k].weight <= m
        invariant if j == 0 then m == -1 else exists k :: 0 <= k < j && nodes[k].weight == m
      {
        if nodes[j].weight > m {
          m := nodes[j].weight;
        }
      }
    }

    /** `weightGcd`. */
    method WeightGcd() returns (divisor: int)
      requires PositiveWeights(nodes)
      ensures nodes == [] ==> divisor == -1
      ensures nodes != [] ==> divisor > 0
      ensures nodes != [] && UnitWeights(nodes) ==> divisor == 1
    {
      divisor := -1;
      for j := 0 to |nodes|
        invariant if j == 0 then divisor == -1 else divisor > 0
        invariant j > 0 && UnitWeights(nodes) ==> divisor == 1
      {
        if divisor == -1 {
          divisor := nodes[j].weight;
        } else {
          divisor := Gcd(divisor, nodes[j].weight);
        }
      }
    }

    /** `Remove`: the node is taken out, and the position keeps pointing at the same node, or at the
        one before it if that was the node. */
    method Remove(ref: Name)
      requires Valid()
      modifies this
      ensures Valid() && (old(Unit()) ==> Unit())
      ensures ref !in old(keySet) ==> nodes == old(nodes) && i == old(i)
      ensures ref in old(keySet) ==> exists r :: RemovedAt(old(nodes), old(i), ref, r, nodes, i)
    {
      if ref !in keySet {
        return;
      }
      var j := Position(ref);
      TakeOut(ref, j);
      assert RemovedAt(old(nodes), old(i), ref, j, nodes, i);
    }

    method Position(ref: Name) returns (j: nat)
      requires ref in KeysOf(nodes)
      ensures j < |nodes| && nodes[j].key == ref
    {
      j := 0;
      while nodes[j].key != ref
        invariant j < |nodes|
        invariant forall k | 0 <= k < j :: nodes[k].key != ref
        decreases |nodes| - j
      {
        assert exists k :: 0 <= k < |nodes| && nodes[k].key == ref;
        j := j + 1;
      }
    }

    method TakeOut(ref: Name, j: nat)
      requires Valid() && j < |nodes| && nodes[j].key == ref
      modifies this
      ensures Valid() && (old(Unit()) ==> Unit())
      ensures nodes == Without(old(nodes), j) && i == if old(i) >= j then old(i) - 1 else old(i)
    {
      WithoutFacts(nodes, j);
      nodes := Without(nodes, j);
      if i >= j {
        i := i - 1;
      }
      keySet := keySet - {ref};
      n := |nodes|;
      cw := 0;
      maxW := WeightMax();
      gcd := WeightGcd();
    }

    lemma WithoutFacts(s: seq<Node>, r: nat)
      requires r < |s| && DistinctKeys(s) && PositiveWeights(s)
      ensures DistinctKeys(Without(s, r)) && PositiveWeights(Without(s, r))
      ensures KeysOf(Without(s, r)) == KeysOf(s) - {s[r].key}
      ensures UnitWeights(s) ==> UnitWeights(Without(s, r))
    {
      var t := Without(s, r);
      forall j | 0 <= j < |t| ensures t[j] == s[if j < r then j else j + 1] { }
      forall k | k in KeysOf(s) - {s[r].key} ensures k in KeysOf(t) {
        var j :| 0 <= j < |s| && s[j].key == k;
        assert t[if j < r then j else j - 1].key == k;
      }
    }
  }
}
