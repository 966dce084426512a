/** Pod conditions kept in step: those named by the tenant's readiness gates are the tenant's, all
    others the super cluster's. */
module PodConditions {
  import opened Names

  datatype Condition = Condition(kind: string, content: string)

  /** `others` is the rest of the status. */
  datatype Status = Status(conditions: seq<Condition>, others: string)

  type ByKind = map<string, Condition>

  ghost predicate Distinct(cs: seq<Condition>) {
    forall i, j | 0 <= i < j < |cs| :: cs[i].kind != cs[j].kind
  }

  function Kinds(cs: seq<Condition>): set<string> {
    set c | c in cs :: c.kind
  }

  predicate WellKeyed(m: ByKind) {
    forall k | k in m :: m[k].kind == k
  }

  /** The conditions of the gated kinds; the last one of each kind counts. */
  function Gated(cs: seq<Condition>, gates: set<string>): (m: ByKind)
    ensures WellKeyed(m) && m.Keys == gates * Kinds(cs)
  {
    if cs == [] then map[]
    else
      var m := Gated(cs[..|cs| - 1], gates);
      var c := cs[|cs| - 1];
      assert Kinds(cs) == Kinds(cs[..|cs| - 1]) + {c.kind} by {
        assert cs == cs[..|cs| - 1] + [c];
      }
      if c.kind in gates then m[c.kind := c] else m
  }

  /** The conditions not of a kind in `drop`, those of a kind in `m` replaced. */
  function Replaced(cs: seq<Condition>, drop: set<string>, m: ByKind): seq<Condition> {
    if cs == [] then []
    else if cs[0].kind in drop then Replaced(cs[1..], drop, m)
    else if cs[0].kind in m then [m[cs[0].kind]] + Replaced(cs[1..], drop, m - {cs[0].kind})
    else [cs[0]] + Replaced(cs[1..], drop, m)
  }

  /** `tail` holds the conditions in `m`, in some order. */
  ghost predicate Lists(tail: seq<Condition>, m: ByKind) {
    Distinct(tail) && (forall c :: c in tail <==> c.kind in m && m[c.kind] == c)
  }

  /** `r` is what a check makes of the super cluster's conditions, for some order in which the map is
      iterated. */
  ghost predicate Merges(cs: seq<Condition>, drop: set<string>, m: ByKind, r: seq<Condition>) {
    var done := Replaced(cs, drop, m);
    done <= r && Lists(r[|done|..], m - Kinds(cs))
  }

  /** The downward and the upward result, where `vGates` and `pGates` are the readiness gates of the
      tenant's pod and of the super cluster's. */
  ghost predicate IsDown(p: seq<Condition>, v: seq<Condition>, vGates: set<string>, r: seq<Condition>) {
    Merges(p, {}, Gated(v, vGates), r)
  }

  ghost predicate IsUp(p: seq<Condition>, v: seq<Condition>, pGates: set<string>, vGates: set<string>,
    r: seq<Condition>) {
    Merges(p, pGates - vGates, Gated(v, vGates), r)
  }

  // ----- Which conditions are replaced -----

  /** No condition before or after position `i` has the same kind. */
  predicate IsFirst(cs: seq<Condition>, i: nat)
    requires i < |cs|
  {
    forall j | 0 <= j < i :: cs[j].kind != cs[i].kind
  }

  predicate IsLast(cs: seq<Condition>, i: nat)
    requires i < |cs|
  {
    forall j | i < j < |cs| :: cs[j].kind != cs[i].kind
  }

  function ValueAt(cs: seq<Condition>, m: ByKind, i: nat): Condition
    requires i < |cs|
  {
    if IsFirst(cs, i) && cs[i].kind in m then m[cs[i].kind] else cs[i]
  }

  /** The first condition of each kind in the map is replaced, and no other. */
  lemma {:induction false} ReplacedAt(cs: seq<Condition>, m: ByKind)
    requires WellKeyed(m)
    ensures |Replaced(cs, {}, m)| == |cs|
    ensures forall i | 0 <= i < |cs| :: Replaced(cs, {}, m)[i] == ValueAt(cs, m, i)
  {
    if cs != [] {
      var rest := cs[1..];
      var m1 := m - {cs[0].kind};
      ReplacedAt(rest, m1);
      if cs[0].kind !in m { assert m1 == m; }
      forall i | 0 <= i < |cs| ensures Replaced(cs, {}, m)[i] == ValueAt(cs, m, i) {
        if i > 0 { ValueInRest(cs, m, i); }
      }
    }
  }

  lemma ValueInRest(cs: seq<Condition>, m: ByKind, i: nat)
    requires 0 < i < |cs|
    ensures ValueAt(cs, m, i) == ValueAt(cs[1..], m - {cs[0].kind}, i - 1)
  {
    var rest := cs[1..];
    assert rest[i - 1] == cs[i];
    if cs[i].kind != cs[0].kind {
      if IsFirst(rest, i - 1) {
        forall j | 0 <= j < i ensures cs[j].kind != cs[i].kind {
          if j > 0 { assert rest[j - 1] == cs[j]; }
        }
      }
      if IsFirst(cs, i) {
        forall j | 0 <= j < i - 1 ensures rest[j].kind != rest[i - 1].kind { assert rest[j] == cs[j + 1]; }
      }
    } else {
      assert !IsFirst(cs, i);
    }
  }

  /** The conditions not of a kind in `drop`. */
  function Kept(cs: seq<Condition>, drop: set<string>): seq<Condition> {
    if cs == [] then []
    else if cs[0].kind in drop then Kept(cs[1..], drop)
    else [cs[0]] + Kept(cs[1..], drop)
  }

  /** Dropping kinds that are not in the map can be done after the replacement. */
  lemma {:induction false} DropLater(cs: seq<Condition>, drop: set<string>, m: ByKind)
    requires WellKeyed(m) && m.Keys !! drop
    ensures Replaced(cs, drop, m) == Kept(Replaced(cs, {}, m), drop)
  {
    if cs != [] {
      DropLater(cs[1..], drop, m);
      DropLater(cs[1..], drop, m - {cs[0].kind});
    }
  }

  lemma {:induction false} KeptAppend(cs: seq<Condition>, c: Condition, drop: set<string>)
    ensures Kept(cs + [c], drop) == Kept(cs, drop) + if c.kind in drop then [] else [c]
  {
    if cs == [] {
      assert [c][1..] == [];
    } else {
      assert (cs + [c])[1..] == cs[1..] + [c];
      KeptAppend(cs[1..], c, drop);
    }
  }

  lemma GatedAppend(cs: seq<Condition>, c: Condition, gates: set<string>)
    ensures Gated(cs + [c], gates) == if c.kind in gates then Gated(cs, gates)[c.kind := c] else Gated(cs, gates)
  {
    assert (cs + [c])[..|cs|] == cs;
  }

  /** Dropping other kinds does not change the gated conditions. */
  lemma {:induction false} GatedOfKept(cs: seq<Condition>, drop: set<string>, gates: set<string>)
    requires gates !! drop
    ensures Gated(Kept(cs, drop), gates) == Gated(cs, gates)
  {
    if cs != [] {
      var init, c := cs[..|cs| - 1], cs[|cs| - 1];
      GatedOfKept(init, drop, gates);
      assert cs == init + [c];
      KeptAppend(init, c, drop);
      assert Kept(init, drop) + [] == Kept(init, drop);
      GatedAppend(Kept(init, drop), c, gates);
    }
  }

  /** The map holds the last condition of each gated kind. */
  lemma {:induction false} GatedIsLast(cs: seq<Condition>, gates: set<string>, i: nat)
    requires i < |cs| && IsLast(cs, i) && cs[i].kind in gates
    ensures cs[i].kind in Gated(cs, gates) && Gated(cs, gates)[cs[i].kind] == cs[i]
  {
    var last := |cs| - 1;
    if i < last {
      assert IsLast(cs[..last], i);
      GatedIsLast(cs[..last], gates, i);
    }
  }

  lemma {:induction false} LastExists(cs: seq<Condition>, i: nat) returns (j: nat)
    requires i < |cs|
    ensures i <= j < |cs| && IsLast(cs, j) && cs[j].kind == cs[i].kind
    decreases |cs| - i
  {
    j := i;
    if !IsLast(cs, i) {
      var k :| i < k < |cs| && cs[k].kind == cs[i].kind;
      j := LastExists(cs, k);
    }
  }

  lemma {:induction false} FirstExists(cs: seq<Condition>, i: nat) returns (j: nat)
    requires i < |cs|
    ensures 0 <= j <= i && IsFirst(cs, j) && cs[j].kind == cs[i].kind
    decreases i
  {
    j := i;
    if !IsFirst(cs, i) {
      var k :| 0 <= k < i && cs[k].kind == cs[i].kind;
      j := FirstExists(cs, k);
    }
  }

  /** The first condition of every kind in the map is the one in the map. */
  ghost predicate FirstsAgree(m: ByKind, cs: seq<Condition>) {
    forall i | 0 <= i < |cs| && IsFirst(cs, i) && cs[i].kind in m :: m[cs[i].kind] == cs[i]
  }

  lemma UnchangedIff(cs: seq<Condition>, m: ByKind)
    requires WellKeyed(m)
    ensures Replaced(cs, {}, m) == cs <==> FirstsAgree(m, cs)
  {
    ReplacedAt(cs, m);
    if FirstsAgree(m, cs) {
      forall i | 0 <= i < |cs| ensures Replaced(cs, {}, m)[i] == cs[i] {
        assert Replaced(cs, {}, m)[i] == ValueAt(cs, m, i);
      }
    } else {
      var i :| 0 <= i < |cs| && IsFirst(cs, i) && cs[i].kind in m && m[cs[i].kind] != cs[i];
      assert Replaced(cs, {}, m)[i] == ValueAt(cs, m, i);
    }
  }

  lemma FirstIsMember(cs: seq<Condition>)
    ensures cs != [] ==> cs[0] in cs
  {
  }

  /** Nothing is appended if every kind in the map is there already. */
  lemma NothingAppended(cs: seq<Condition>, drop: set<string>, m: ByKind, r: seq<Condition>)
    requires Merges(cs, drop, m, r) && m.Keys <= Kinds(cs)
    ensures r == Replaced(cs, drop, m)
  {
    var tail := r[|Replaced(cs, drop, m)|..];
    FirstIsMember(tail);
  }

  // ----- When the conditions settle -----

  /** What comes first in the super cluster's conditions after a downward sync. */
  lemma DownAt(p: seq<Condition>, m: ByKind, p1: seq<Condition>)
    requires WellKeyed(m) && Merges(p, {}, m, p1)
    ensures |p| <= |p1| && forall i | 0 <= i < |p| :: p1[i] == ValueAt(p, m, i) && p1[i].kind == p[i].kind
    ensures forall i | |p| <= i < |p1| ::
      p1[i].kind !in Kinds(p) && p1[i].kind in m && m[p1[i].kind] == p1[i] && IsLast(p1, i) && IsFirst(p1, i)
  {
    ReplacedAt(p, m);
    var tail := p1[|p|..];
    forall i | 0 <= i < |p| ensures p1[i] == ValueAt(p, m, i) { assert p1[i] == Replaced(p, {}, m)[i]; }
    forall i | 0 <= i < |tail| ensures p1[|p| + i] == tail[i] && tail[i] in tail { }
    forall i | |p| <= i < |p1|
      ensures p1[i].kind !in Kinds(p) && p1[i].kind in m && m[p1[i].kind] == p1[i] && IsLast(p1, i) && IsFirst(p1, i)
    {
      InTail(p, m, p1, i);
    }
  }

  lemma InTail(p: seq<Condition>, m: ByKind, p1: seq<Condition>, i: nat)
    requires |p| <= i < |p1| && Lists(p1[|p|..], m - Kinds(p))
    requires forall j | 0 <= j < |p| :: p1[j].kind == p[j].kind
    ensures p1[i].kind !in Kinds(p) && p1[i].kind in m && m[p1[i].kind] == p1[i] && IsLast(p1, i) && IsFirst(p1, i)
  {
    var tail := p1[|p|..];
    assert tail[i - |p|] == p1[i] && p1[i] in tail;
    forall j | 0 <= j < |p1| && j != i ensures p1[j].kind != p1[i].kind {
      if j < |p| { assert p[j] in p; } else { assert tail[j - |p|] == p1[j]; }
    }
  }

  /** After a downward sync the super cluster has every gated condition of the tenant, and the first
      condition of each such kind is the tenant's. */
  lemma DownAgrees(p: seq<Condition>, m: ByKind, p1: seq<Condition>)
    requires WellKeyed(m) && Merges(p, {}, m, p1)
    ensures FirstsAgree(m, p1) && m.Keys <= Kinds(p1)
  {
    DownAt(p, m, p1);
    forall i | 0 <= i < |p1| && IsFirst(p1, i) && p1[i].kind in m ensures m[p1[i].kind] == p1[i] {
      if i < |p| { FirstsStay(p, p1, i); }
    }
    forall k | k in m ensures k in Kinds(p1) {
      if k in Kinds(p) {
        var i :| 0 <= i < |p| && p[i].kind == k;
        assert p1[i].kind == k && p1[i] in p1;
      } else {
        assert m[k] in p1[|p|..];
        assert m[k] in p1;
      }
    }
  }

  lemma FirstsStay(p: seq<Condition>, p1: seq<Condition>, i: nat)
    requires i < |p| <= |p1| && forall j | 0 <= j < |p| :: p1[j].kind == p[j].kind
    ensures IsFirst(p, i) <==> IsFirst(p1, i)
  {
    if !IsFirst(p, i) {
      var j :| 0 <= j < i && p[j].kind == p[i].kind;
      assert p1[j].kind == p1[i].kind;
    } else {
      forall j | 0 <= j < i ensures p1[j].kind != p1[i].kind { assert p[j].kind != p[i].kind; }
    }
  }

  lemma LastsStay(p: seq<Condition>, p1: seq<Condition>, i: nat)
    requires i < |p| <= |p1| && (forall j | 0 <= j < |p| :: p1[j].kind == p[j].kind)
    requires forall j | |p| <= j < |p1| :: p1[j].kind !in Kinds(p)
    ensures IsLast(p, i) <==> IsLast(p1, i)
  {
    assert p[i] in p;
    if !IsLast(p, i) {
      var j :| i < j < |p| && p[j].kind == p[i].kind;
      assert p1[j].kind == p1[i].kind;
    } else {
      forall j | i < j < |p1| ensures p1[j].kind != p1[i].kind {
        if j < |p| { assert p[j].kind != p[i].kind; }
      }
    }
  }

  /** The tenant's last condition of the kind of `c`, or `c` itself. */
  function LastOr(v: seq<Condition>, c: Condition): Condition {
    if v == [] then c
    else if v[|v| - 1].kind == c.kind then v[|v| - 1]
    else LastOr(v[..|v| - 1], c)
  }

  lemma {:induction false} LastOrGated(v: seq<Condition>, gates: set<string>, c: Condition)
    requires c.kind in gates
    ensures LastOr(v, c) == if c.kind in Gated(v, gates) then Gated(v, gates)[c.kind] else c
  {
    if v != [] { LastOrGated(v[..|v| - 1], gates, c); }
  }

  /** For every gated kind that is repeated in the super cluster's conditions, the last of them is the
      tenant's, or if the tenant has none, is like the first of them. */
  ghost predicate RepeatsAgree(p: seq<Condition>, v: seq<Condition>, vGates: set<string>) {
    forall i, j | 0 <= i < j < |p| && p[i].kind == p[j].kind && p[i].kind in vGates && IsFirst(p, i) && IsLast(p, j) ::
      p[j] == LastOr(v, p[i])
  }

  /** The last gated conditions of a downward result are also its first ones exactly if the repeats agree. */
  lemma LastsAreFirstsIff(p: seq<Condition>, v: seq<Condition>, vGates: set<string>, p1: seq<Condition>)
    requires IsDown(p, v, vGates, p1)
    ensures FirstsAgree(Gated(p1, vGates), p1) <==> RepeatsAgree(p, v, vGates)
  {
    var m, m1 := Gated(v, vGates), Gated(p1, vGates);
    DownAt(p, m, p1);
    if FirstsAgree(m1, p1) {
      forall i, j | 0 <= i < j < |p| && p[i].kind == p[j].kind && p[i].kind in vGates && IsFirst(p, i) && IsLast(p, j)
        ensures p[j] == LastOr(v, p[i])
      {
        FirstsStay(p, p1, i);
        LastsStay(p, p1, j);
        GatedIsLast(p1, vGates, j);
        LastOrGated(v, vGates, p[i]);
        assert !IsFirst(p, j);
        assert p1[i] == ValueAt(p, m, i) && p1[j] == ValueAt(p, m, j);
      }
    }
    if RepeatsAgree(p, v, vGates) {
      forall i | 0 <= i < |p1| && IsFirst(p1, i) && p1[i].kind in m1 ensures m1[p1[i].kind] == p1[i] {
        FirstIsLast(p, v, vGates, p1, i);
      }
    }
  }

  lemma FirstIsLast(p: seq<Condition>, v: seq<Condition>, vGates: set<string>, p1: seq<Condition>, i: nat)
    requires IsDown(p, v, vGates, p1) && RepeatsAgree(p, v, vGates)
    requires i < |p1| && IsFirst(p1, i) && p1[i].kind in vGates
    ensures p1[i].kind in Gated(p1, vGates) && Gated(p1, vGates)[p1[i].kind] == p1[i]
  {
    var m := Gated(v, vGates);
    DownAt(p, m, p1);
    if i < |p| {
      FirstsStay(p, p1, i);
      var j := LastExists(p, i);
      LastsStay(p, p1, j);
      GatedIsLast(p1, vGates, j);
      LastOrGated(v, vGates, p[i]);
      assert p1[i] == ValueAt(p, m, i) && p1[j] == ValueAt(p, m, j);
      if i < j { assert !IsFirst(p, j); }
    } else {
      GatedIsLast(p1, vGates, i);
    }
  }

  /** The upward result is the downward one less the dropped kinds. */
  lemma UpIsKept(p: seq<Condition>, v: seq<Condition>, pGates: set<string>, vGates: set<string>,
      p1: seq<Condition>, v1: seq<Condition>)
    requires IsDown(p, v, vGates, p1) && IsUp(p1, v, pGates, vGates, v1)
    ensures v1 == Kept(p1, pGates - vGates)
  {
    var m, drop := Gated(v, vGates), pGates - vGates;
    DownAgrees(p, m, p1);
    NothingAppended(p1, drop, m, v1);
    DropLater(p1, drop, m);
    UnchangedIff(p1, m);
  }

  /** One downward and one upward sync settle the conditions - another sync in either direction has only
      the same result - exactly if the repeats agree, whatever the order in which the maps are iterated. */
  lemma ConditionsSettleIff(p: seq<Condition>, v: seq<Condition>, pGates: set<string>, vGates: set<string>,
      p1: seq<Condition>, v1: seq<Condition>, p2: seq<Condition>, v2: seq<Condition>)
    requires IsDown(p, v, vGates, p1) && IsUp(p1, v, pGates, vGates, v1)
    requires IsDown(p1, v1, vGates, p2) && IsUp(p1, v1, pGates, vGates, v2)
    ensures p2 == p1 && v2 == v1 <==> RepeatsAgree(p, v, vGates)
  {
    var drop := pGates - vGates;
    UpIsKept(p, v, pGates, vGates, p1, v1);
    GatedOfKept(p1, drop, vGates);
    var m1 := Gated(p1, vGates);
    NothingAppended(p1, {}, m1, p2);
    NothingAppended(p1, drop, m1, v2);
    DropLater(p1, drop, m1);
    UnchangedIff(p1, m1);
    LastsAreFirstsIff(p, v, vGates, p1);
  }

  /** In particular they settle if the super cluster repeats no gated kind. */
  lemma ConditionsSettle(p: seq<Condition>, v: seq<Condition>, pGates: set<string>, vGates: set<string>,
      p1: seq<Condition>, v1: seq<Condition>, p2: seq<Condition>, v2: seq<Condition>)
    requires forall i, j | 0 <= i < j < |p| && p[i].kind in vGates :: p[i].kind != p[j].kind
    requires IsDown(p, v, vGates, p1) && IsUp(p1, v, pGates, vGates, v1)
    requires IsDown(p1, v1, vGates, p2) && IsUp(p1, v1, pGates, vGates, v2)
    ensures p2 == p1 && v2 == v1
  {
    ConditionsSettleIff(p, v, pGates, vGates, p1, v1, p2, v2);
  }

  /** They do not settle if the super cluster has two conditions of a gated kind and the second is not
      the tenant's. */
  lemma RepeatedKindsDoNotSettle(a: Condition, b: Condition, c: Condition, pGates: set<string>, vGates: set<string>,
      p1: seq<Condition>, v1: seq<Condition>, p2: seq<Condition>, v2: seq<Condition>)
    requires a.kind == b.kind == c.kind && a.kind in vGates && b != c
    requires IsDown([a, b], [c], vGates, p1) && IsUp(p1, [c], pGates, vGates, v1)
    requires IsDown(p1, v1, vGates, p2) && IsUp(p1, v1, pGates, vGates, v2)
    ensures !(p2 == p1 && v2 == v1)
  {
    ConditionsSettleIff([a, b], [c], pGates, vGates, p1, v1, p2, v2);
    assert IsFirst([a, b], 0) && IsLast([a, b], 1);
    assert [a, b][1] != LastOr([c], [a, b][0]);
  }

  /** What a downward and an upward sync lead to, for any conditions: in the super cluster the first condition of every
      gated kind becomes the tenant's last one, the others stay where they are, and the tenant's gated conditions of
      other kinds are added, each once; the tenant sees all of these but for the kinds that only the super cluster's
      gates name. */
  lemma WhoSeesWhat(p: seq<Condition>, v: seq<Condition>, pGates: set<string>, vGates: set<string>,
      p1: seq<Condition>, v1: seq<Condition>)
    requires IsDown(p, v, vGates, p1) && IsUp(p1, v, pGates, vGates, v1)
    ensures |p| <= |p1|
    ensures forall i | 0 <= i < |p| ::
      p1[i] == if IsFirst(p, i) && p[i].kind in vGates then LastOr(v, p[i]) else p[i]
    ensures Distinct(p1[|p|..])
    ensures forall c ::
      c in p1[|p|..] <==> c.kind in vGates && c.kind in Kinds(v) && c.kind !in Kinds(p) && LastOr(v, c) == c
    ensures v1 == Kept(p1, pGates - vGates)
  {
    var m := Gated(v, vGates);
    UpIsKept(p, v, pGates, vGates, p1, v1);
    DownAt(p, m, p1);
    forall i | 0 <= i < |p|
      ensures p1[i] == if IsFirst(p, i) && p[i].kind in vGates then LastOr(v, p[i]) else p[i]
    {
      assert p1[i] == ValueAt(p, m, i);
      if p[i].kind in vGates { LastOrGated(v, vGates, p[i]); }
    }
    ReplacedAt(p, m);
    forall c ensures
      c in p1[|p|..] <==> c.kind in vGates && c.kind in Kinds(v) && c.kind !in Kinds(p) && LastOr(v, c) == c
    {
      if c.kind in vGates { LastOrGated(v, vGates, c); }
    }
  }

  // ----- The checks -----

  method GateSet(gates: seq<string>) returns (r: set<string>)
    ensures r == set g | g in gates
  {
    r := {};
    for i := 0 to |gates|
      invariant r == set g | g in gates[..i]
    {
      assert gates[..i + 1] == gates[..i] + [gates[i]];
      r := r + {gates[i]};
    }
    assert gates[..|gates|] == gates;
  }

  method ConditionMap(cs: seq<Condition>, gates: set<string>) returns (m: ByKind)
    ensures m == Gated(cs, gates)
  {
    m := map[];
    for i := 0 to |cs|
      invariant m == Gated(cs[..i], gates)
    {
      assert cs[..i + 1][..i] == cs[..i];
      if cs[i].kind in gates {
        m := m[cs[i].kind := cs[i]];
      }
    }
    assert cs[..|cs|] == cs;
  }

  /** What has been done when the loops over the conditions have come to `i`, which was at `j`. */
  ghost predicate Merging(p: seq<Condition>, drop: set<string>, m0: ByKind, cs: seq<Condition>, m: ByKind, i: nat,
    j: nat) {
    && i <= |cs| && j <= |p| && cs[i..] == p[j..]
    && cs[..i] + Replaced(p[j..], drop, m) == Replaced(p, drop, m0)
    && m == m0 - Kinds(p[..j])
  }

  lemma KindsGrow(p: seq<Condition>, j: nat)
    requires j < |p|
    ensures Kinds(p[..j + 1]) == Kinds(p[..j]) + {p[j].kind}
  {
    assert p[..j + 1] == p[..j] + [p[j]];
  }

  lemma MergingStarts(p: seq<Condition>, drop: set<string>, m: ByKind)
    ensures Merging(p, drop, m, p, m, 0, 0)
  {
    assert p[..0] == [];
    assert p[0..] == p;
  }

  lemma MergingKeeps(p: seq<Condition>, drop: set<string>, m0: ByKind, cs: seq<Condition>, m: ByKind, i: nat, j: nat)
    requires Merging(p, drop, m0, cs, m, i, j) && i < |cs| && cs[i].kind !in drop && cs[i].kind !in m
    ensures Merging(p, drop, m0, cs, m, i + 1, j + 1)
  {
    KindsGrow(p, j);
    assert cs[i] == cs[i..][0] && p[j] == p[j..][0] && p[j..][1..] == p[j + 1..] && cs[i..][1..] == cs[i + 1..];
    assert cs[..i + 1] == cs[..i] + [cs[i]];
    assert cs[..i + 1] + Replaced(p[j + 1..], drop, m) == cs[..i] + Replaced(p[j..], drop, m);
  }

  lemma MergingReplaces(p: seq<Condition>, drop: set<string>, m0: ByKind, cs: seq<Condition>, m: ByKind, i: nat, j: nat)
    requires Merging(p, drop, m0, cs, m, i, j) && i < |cs| && cs[i].kind !in drop && cs[i].kind in m
    ensures Merging(p, drop, m0, cs[i := m[cs[i].kind]], m - {cs[i].kind}, i + 1, j + 1)
  {
    KindsGrow(p, j);
    assert cs[i] == cs[i..][0] && p[j] == p[j..][0] && p[j..][1..] == p[j + 1..] && cs[i..][1..] == cs[i + 1..];
    var us, u := cs[i := m[cs[i].kind]], m - {cs[i].kind};
    assert us[..i + 1] == cs[..i] + [m[cs[i].kind]];
    assert us[..i + 1] + Replaced(p[j + 1..], drop, u) == cs[..i] + Replaced(p[j..], drop, m);
  }

  lemma MergingDrops(p: seq<Condition>, drop: set<string>, m0: ByKind, cs: seq<Condition>, m: ByKind, i: nat, j: nat)
    requires Merging(p, drop, m0, cs, m, i, j) && i < |cs| && cs[i].kind in drop && cs[i].kind !in m
    ensures Merging(p, drop, m0, cs[..i] + cs[i + 1..], m, i, j + 1)
  {
    KindsGrow(p, j);
    assert cs[i] == cs[i..][0] && p[j] == p[j..][0] && p[j..][1..] == p[j + 1..] && cs[i..][1..] == cs[i + 1..];
    assert (cs[..i] + cs[i + 1..])[..i] == cs[..i];
  }

  lemma MergingEnds(p: seq<Condition>, drop: set<string>, m0: ByKind, cs: seq<Condition>, m: ByKind, j: nat)
    requires Merging(p, drop, m0, cs, m, |cs|, j)
    ensures cs == Replaced(p, drop, m0) && m == m0 - Kinds(p)
  {
    assert |p[j..]| == 0;
    assert p[..j] == p && cs[..|cs|] == cs;
  }

  /** The conditions left in the map are appended, in whatever order they come. */
  method AppendAll(done: seq<Condition>, m: ByKind) returns (r: seq<Condition>)
    requires WellKeyed(m)
    ensures done <= r && Lists(r[|done|..], m)
  {
    r := done;
    var keys := m.Keys;
    while keys != {}
      invariant keys <= m.Keys && done <= r && Lists(r[|done|..], m - keys)
    {
      var k :| k in keys;
      ghost var tail := r[|done|..];
      keys := keys - {k};
      r := r + [m[k]];
      assert r[|done|..] == tail + [m[k]];
      forall i | 0 <= i < |tail| ensures tail[i].kind != k { assert tail[i] in tail; }
    }
    assert m - {} == m;
  }

  /** `CheckDWPodConditionEquality`: the status the super cluster should have, if it has another. */
  method CheckDWPodConditionEquality(p: Status, v: Status, vGates: seq<string>)
    returns (updated: Option<Status>, ghost r: seq<Condition>)
    ensures IsDown(p.conditions, v.conditions, (set g | g in vGates), r)
    ensures updated == if r == p.conditions then None else Some(p.(conditions := r))
  {
    var gates := GateSet(vGates);
    var m := ConditionMap(v.conditions, gates);
    var cs, rest := ReplaceAll(p.conditions, gates, m);
    cs := AppendAll(cs, rest);
    r := cs;
    updated := if p.conditions != cs then Some(p.(conditions := cs)) else None;
  }

  /** The loop of `CheckDWPodConditionEquality` over the conditions of the super cluster. */
  method ReplaceAll(p: seq<Condition>, gates: set<string>, m0: ByKind) returns (cs: seq<Condition>, m: ByKind)
    requires m0.Keys <= gates
    ensures cs == Replaced(p, {}, m0) && m == m0 - Kinds(p)
  {
    cs, m := p, m0;
    MergingStarts(p, {}, m);
    var i := 0;
    while i < |cs|
      invariant 0 <= i <= |cs| && Merging(p, {}, m0, cs, m, i, i) && m.Keys <= gates
      decreases |cs| - i
    {
      var c := cs[i];
      if c.kind in gates && c.kind in m {
        MergingReplaces(p, {}, m0, cs, m, i, i);
        cs := cs[i := m[c.kind]];
        m := m - {c.kind};
      } else {
        MergingKeeps(p, {}, m0, cs, m, i, i);
      }
      i := i + 1;
    }
    MergingEnds(p, {}, m0, cs, m, i);
  }

  /** `CheckUWPodStatusEquality`: the status the tenant should have, if it has another. The loop deletes
      from the list that it walks. */
  method CheckUWPodStatusEquality(p: Status, v: Status, pGates: seq<string>, vGates: seq<string>)
    returns (updated: Option<Status>, ghost r: seq<Condition>)
    ensures IsUp(p.conditions, v.conditions, (set g | g in pGates), (set g | g in vGates), r)
    ensures updated == if v == p.(conditions := r) then None else Some(p.(conditions := r))
  {
    var vSet := GateSet(vGates);
    var pSet := GateSet(pGates);
    var m := ConditionMap(v.conditions, vSet);
    ghost var m0, drop := m, pSet - vSet;
    var cs := p.conditions;
    MergingStarts(cs, drop, m);
    var i := 0;
    ghost var j := 0;
    while i < |cs|
      invariant 0 <= i <= |cs| && 0 <= j && Merging(p.conditions, drop, m0, cs, m, i, j) && m.Keys <= vSet
      decreases |cs| - i
    {
      var c := cs[i];
      if c.kind !in pSet && c.kind !in vSet {
        MergingKeeps(p.conditions, drop, m0, cs, m, i, j);
      } else if c.kind !in vSet {
        MergingDrops(p.conditions, drop, m0, cs, m, i, j);
        cs := cs[..i] + cs[i + 1..];
        i := i - 1;
      } else if c.kind in m {
        MergingReplaces(p.conditions, drop, m0, cs, m, i, j);
        cs := cs[i := m[c.kind]];
        m := m - {c.kind};
      } else {
        MergingKeeps(p.conditions, drop, m0, cs, m, i, j);
      }
      i, j := i + 1, j + 1;
    }
    MergingEnds(p.conditions, drop, m0, cs, m, j);
    cs := AppendAll(cs, m);
    r := cs;
    updated := if v != p.(conditions := cs) then Some(p.(conditions := cs)) else None;
  }
}
