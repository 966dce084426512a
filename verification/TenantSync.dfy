/** Labels and annotations kept in step between a tenant and the super cluster. */
module TenantSync {
  import opened Names
  import opened Text

  type KV = map<string, string>

  datatype Tenant = Tenant(transparent: seq<string>, opaquePrefixes: seq<string>)

  /** The syncer's configuration and the virtual cluster; either may be missing. */
  datatype Equality = Equality(opaqueDomains: Option<seq<string>>, tenant: Option<Tenant>)

  const OPAQUE_PREFIX := "tenancy.x-k8s.io"
  const TRANSPARENT_PREFIX := "transparency.tenancy.x-k8s.io"

  // ----- Which keys are whose -----

  /** The part of a key before its first slash. */
  function Domain(k: string): string {
    Split(k, '/')[0]
  }

  function Exceptions(e: Equality): seq<string> {
    match e.tenant
    case None => []
    case Some(t) => t.transparent + t.opaquePrefixes + [OPAQUE_PREFIX, TRANSPARENT_PREFIX]
  }

  /** The super cluster owns the key. */
  predicate Exempt(e: Equality, k: string) {
    || (exists i :: 0 <= i < |Exceptions(e)| && HasPrefix(k, Exceptions(e)[i]))
    || (e.opaqueDomains.Some? && exists d | d in e.opaqueDomains.value :: HasSuffix(Domain(k), d))
  }

  /** The key is copied up to the tenant. */
  predicate Transparent(e: Equality, k: string) {
    && e.tenant.Some?
    && (HasPrefix(k, TRANSPARENT_PREFIX) || exists p | p in e.tenant.value.transparent :: HasPrefix(k, p))
  }

  lemma TransparentIsExempt(e: Equality, k: string)
    requires Transparent(e, k)
    ensures Exempt(e, k)
  {
    var xs := Exceptions(e);
    var t := e.tenant.value.transparent;
    if HasPrefix(k, TRANSPARENT_PREFIX) {
      assert xs[|xs| - 1] == TRANSPARENT_PREFIX;
    } else {
      var i :| 0 <= i < |t| && HasPrefix(k, t[i]);
      assert xs[i] == t[i];
    }
  }

  // ----- The same in plain words -----

  /** The part of the key before its first slash ends in one of the opaque domains. */
  ghost predicate InOpaqueDomain(e: Equality, k: string) {
    e.opaqueDomains.Some? && exists p, d :: IsFirstPart(k, p) && d in e.opaqueDomains.value && EndsIn(p, d)
  }

  /** The prefixes of keys that a tenant must not use. */
  ghost predicate IsTakenPrefix(t: Tenant, x: string) {
    x in t.transparent || x in t.opaquePrefixes || x == "tenancy.x-k8s.io" || x == "transparency.tenancy.x-k8s.io"
  }

  /** The super cluster owns the key. */
  ghost predicate SuperOwns(e: Equality, k: string) {
    || InOpaqueDomain(e, k)
    || (e.tenant.Some? && exists x :: IsTakenPrefix(e.tenant.value, x) && StartsWith(k, x))
  }

  /** The super cluster's value is shown to the tenant. */
  ghost predicate ShownToTenant(e: Equality, k: string) {
    && e.tenant.Some?
    && (StartsWith(k, "transparency.tenancy.x-k8s.io")
        || exists x :: x in e.tenant.value.transparent && StartsWith(k, x))
  }

  lemma OpaqueIff(e: Equality, k: string)
    ensures InOpaqueDomain(e, k) <==>
      e.opaqueDomains.Some? && exists d | d in e.opaqueDomains.value :: HasSuffix(Domain(k), d)
  {
    FirstPartIs(k, Domain(k));
    if InOpaqueDomain(e, k) {
      var p, d :| IsFirstPart(k, p) && d in e.opaqueDomains.value && EndsIn(p, d);
      FirstPartIs(k, p);
      HasSuffixIff(p, d);
    }
    if e.opaqueDomains.Some? {
      forall d | d in e.opaqueDomains.value && HasSuffix(Domain(k), d) ensures InOpaqueDomain(e, k) {
        HasSuffixIff(Domain(k), d);
      }
    }
  }

  /** For a key with a slash, what matters is the part before it; otherwise the whole key. */
  lemma OpaqueKeys(e: Equality, p: string, rest: string)
    requires '/' !in p
    ensures InOpaqueDomain(e, p + "/" + rest) <==>
      e.opaqueDomains.Some? && exists d :: d in e.opaqueDomains.value && EndsIn(p, d)
    ensures InOpaqueDomain(e, p) <==> e.opaqueDomains.Some? && exists d :: d in e.opaqueDomains.value && EndsIn(p, d)
  {
    assert IsFirstPart(p + "/" + rest, p) && IsFirstPart(p, p);
    forall q | IsFirstPart(p + "/" + rest, q) ensures q == p {
      FirstPartIs(p + "/" + rest, q);
      FirstPartIs(p + "/" + rest, p);
    }
    forall q | IsFirstPart(p, q) ensures q == p {
      FirstPartIs(p, q);
      FirstPartIs(p, p);
    }
  }

  lemma ExceptionsIff(e: Equality, x: string)
    ensures x in Exceptions(e) <==> e.tenant.Some? && IsTakenPrefix(e.tenant.value, x)
  {
  }

  lemma ExemptIff(e: Equality, k: string)
    ensures Exempt(e, k) <==> SuperOwns(e, k)
  {
    OpaqueIff(e, k);
    var xs := Exceptions(e);
    forall i | 0 <= i < |xs| && HasPrefix(k, xs[i]) ensures SuperOwns(e, k) {
      HasPrefixIff(k, xs[i]);
      assert xs[i] in xs;
      ExceptionsIff(e, xs[i]);
    }
    forall x | e.tenant.Some? && IsTakenPrefix(e.tenant.value, x) && StartsWith(k, x) ensures Exempt(e, k) {
      HasPrefixIff(k, x);
      ExceptionsIff(e, x);
      var i :| 0 <= i < |xs| && xs[i] == x;
    }
  }

  lemma TransparentIff(e: Equality, k: string)
    ensures Transparent(e, k) <==> ShownToTenant(e, k)
  {
    HasPrefixIff(k, TRANSPARENT_PREFIX);
    if e.tenant.Some? {
      forall x | x in e.tenant.value.transparent ensures HasPrefix(k, x) <==> StartsWith(k, x) { HasPrefixIff(k, x); }
    }
  }

  /** What a downward and an upward check lead to: the super cluster keeps its own keys and has the tenant's others;
      the tenant gets the keys that are shown to it and keeps its others. */
  ghost predicate HeldDown(e: Equality, p: KV, v: KV, r: KV) {
    forall k :: if SuperOwns(e, k) then SameAt(r, p, k) else SameAt(r, v, k)
  }

  ghost predicate HeldUp(e: Equality, p: KV, v: KV, r: KV) {
    forall k :: if k in p && ShownToTenant(e, k) then SameAt(r, p, k) else SameAt(r, v, k)
  }

  lemma DownHolds(e: Equality, p: KV, v: KV)
    ensures HeldDown(e, p, v, Down(e, p, v))
  {
    forall k ensures if SuperOwns(e, k) then SameAt(Down(e, p, v), p, k) else SameAt(Down(e, p, v), v, k) {
      ExemptIff(e, k);
    }
  }

  lemma UpHolds(e: Equality, p: KV, v: KV)
    ensures HeldUp(e, p, v, Upward(e, p, v))
  {
    forall k
      ensures if k in p && ShownToTenant(e, k) then SameAt(Upward(e, p, v), p, k) else SameAt(Upward(e, p, v), v, k)
    {
      TransparentIff(e, k);
    }
  }

  // ----- What the two directions achieve -----

  /** The super cluster's own keys and, of all others, the tenant's. */
  ghost function Down(e: Equality, p: KV, v: KV): KV {
    map k | k in p.Keys + v.Keys && (if Exempt(e, k) then k in p else k in v) :: if Exempt(e, k) then p[k] else v[k]
  }

  /** The tenant's keys, overridden by the transparent keys of the super cluster. */
  ghost function Upward(e: Equality, p: KV, v: KV): KV {
    map k | k in p.Keys + v.Keys && (k in v || Transparent(e, k)) :: if k in p && Transparent(e, k) then p[k] else v[k]
  }

  predicate SameAt(p: KV, v: KV, k: string) {
    (k in p <==> k in v) && (k in p ==> p[k] == v[k])
  }

  /** Both checks report equal. */
  ghost predicate Settled(d: Equality, u: Equality, p: KV, v: KV) {
    Down(d, p, v) == p && Upward(u, p, v) == v
  }

  /** The maps are settled exactly if they agree on the keys the super cluster does not own, and the
      tenant has the transparent ones. */
  lemma SettledIff(d: Equality, u: Equality, p: KV, v: KV)
    ensures Settled(d, u, p, v) <==>
      && (forall k :: Exempt(d, k) || SameAt(p, v, k))
      && (forall k | k in p && Transparent(u, k) :: SameAt(p, v, k))
  {
    if Settled(d, u, p, v) {
      forall k ensures Exempt(d, k) || SameAt(p, v, k) {
        assert k in Down(d, p, v) <==> k in p;
        assert k in p ==> Down(d, p, v)[k] == p[k];
      }
      forall k | k in p && Transparent(u, k) ensures SameAt(p, v, k) {
        assert k in Upward(u, p, v);
      }
    }
    if (forall k :: Exempt(d, k) || SameAt(p, v, k)) && (forall k | k in p && Transparent(u, k) :: SameAt(p, v, k)) {
      forall k ensures SameAt(Down(d, p, v), p, k) { assert Exempt(d, k) || SameAt(p, v, k); }
      assert Down(d, p, v) == p;
      forall k ensures SameAt(Upward(u, p, v), v, k) { }
      assert Upward(u, p, v) == v;
    }
  }

  /** One downward and then one upward sync settle any two maps, also when the two directions were
      given different configurations. */
  lemma DownThenUpSettles(d: Equality, u: Equality, p: KV, v: KV)
    ensures var p1 := Down(d, p, v); Settled(d, u, p1, Upward(u, p1, v))
  {
    var p1 := Down(d, p, v);
    SettledIff(d, u, p1, Upward(u, p1, v));
  }

  /** Neither direction sees whether the other has run. */
  ghost predicate Independent(d: Equality, u: Equality, p: KV, v: KV) {
    Down(d, p, Upward(u, p, v)) == Down(d, p, v) && Upward(u, Down(d, p, v), v) == Upward(u, p, v)
  }

  /** The two directions never disturb each other exactly if every transparent key belongs to the super
      cluster. */
  lemma DirectionsCommuteIff(d: Equality, u: Equality)
    ensures (forall k | Transparent(u, k) :: Exempt(d, k)) <==>
      (forall p, v :: Independent(d, u, p, v))
  {
    if forall k | Transparent(u, k) :: Exempt(d, k) {
      forall p, v ensures Independent(d, u, p, v) {
        Undisturbed(d, u, p, v);
      }
    } else {
      var k :| Transparent(u, k) && !Exempt(d, k);
      Disturbs(d, u, k);
      var p: KV, none: KV := map[k := "super"], map[];
      assert k in p && p != none;
      assert !Independent(d, u, p, none);
    }
  }

  /** A transparent key that the super cluster does not own goes up or is deleted, as the order decides. */
  lemma Disturbs(d: Equality, u: Equality, k: string)
    requires Transparent(u, k) && !Exempt(d, k)
    ensures var p: KV := map[k := "super"]; Down(d, p, Upward(u, p, map[])) == p && Down(d, p, map[]) == map[]
  {
    var p: KV := map[k := "super"];
    assert Upward(u, p, map[]) == p;
    assert Down(d, p, p) == p;
  }

  lemma Undisturbed(d: Equality, u: Equality, p: KV, v: KV)
    requires forall k | Transparent(u, k) :: Exempt(d, k)
    ensures Independent(d, u, p, v)
  {
    DownIgnoresUp(d, u, p, v);
    UpIgnoresDown(d, u, p, v);
  }

  lemma DownIgnoresUp(d: Equality, u: Equality, p: KV, v: KV)
    requires forall k | Transparent(u, k) :: Exempt(d, k)
    ensures Down(d, p, Upward(u, p, v)) == Down(d, p, v)
  {
    var v1 := Upward(u, p, v);
    forall k | !Exempt(d, k) ensures SameAt(v1, v, k) { }
    DownReads(d, p, v1, v);
  }

  /** The downward sync looks at the tenant's map only where the super cluster does not own the key. */
  lemma DownReads(d: Equality, p: KV, v: KV, w: KV)
    requires forall k | !Exempt(d, k) :: SameAt(v, w, k)
    ensures Down(d, p, v) == Down(d, p, w)
  {
    forall k ensures SameAt(Down(d, p, v), Down(d, p, w), k) { assert !Exempt(d, k) ==> SameAt(v, w, k); }
  }

  lemma UpIgnoresDown(d: Equality, u: Equality, p: KV, v: KV)
    requires forall k | Transparent(u, k) :: Exempt(d, k)
    ensures Upward(u, Down(d, p, v), v) == Upward(u, p, v)
  {
    var p1 := Down(d, p, v);
    forall k | Transparent(u, k) ensures SameAt(p1, p, k) { assert Exempt(d, k); }
    UpReads(u, p1, p, v);
  }

  /** The upward sync looks at the super cluster's map only for transparent keys. */
  lemma UpReads(u: Equality, p: KV, q: KV, v: KV)
    requires forall k | Transparent(u, k) :: SameAt(p, q, k)
    ensures Upward(u, p, v) == Upward(u, q, v)
  {
    forall k ensures SameAt(Upward(u, p, v), Upward(u, q, v), k) { assert Transparent(u, k) ==> SameAt(p, q, k); }
  }

  datatype Direction = Downward | Upwards

  ghost function Step(e: Equality, m: (KV, KV), step: Direction): (KV, KV) {
    if step.Downward? then (Down(e, m.0, m.1), m.1) else (m.0, Upward(e, m.0, m.1))
  }

  /** The super cluster's and the tenant's map after a sequence of syncs. */
  ghost function Synced(e: Equality, p: KV, v: KV, steps: seq<Direction>): (KV, KV) {
    if steps == [] then (p, v) else Step(e, Synced(e, p, v, steps[..|steps| - 1]), steps[|steps| - 1])
  }

  /** The maps when some of the two directions have run on `p` and `v`. */
  ghost function RunOnce(e: Equality, p: KV, v: KV, down: bool, up: bool): (KV, KV) {
    (if down then Down(e, p, v) else p, if up then Upward(e, p, v) else v)
  }

  /** In whatever order and however often the two directions run, the result is the same, and it is
      settled once both have run. */
  lemma {:induction false} AnyOrderSettles(e: Equality, p: KV, v: KV, steps: seq<Direction>)
    ensures Synced(e, p, v, steps) == RunOnce(e, p, v, Downward in steps, Upwards in steps)
    ensures Downward in steps && Upwards in steps ==> Settled(e, e, Synced(e, p, v, steps).0, Synced(e, p, v, steps).1)
  {
    if steps != [] {
      var last := |steps| - 1;
      AnyOrderSettles(e, p, v, steps[..last]);
      assert steps == steps[..last] + [steps[last]];
      OneMore(e, p, v, Downward in steps[..last], Upwards in steps[..last], steps[last]);
    }
    BothSettle(e, p, v);
  }

  lemma BothSettle(e: Equality, p: KV, v: KV)
    ensures Settled(e, e, Down(e, p, v), Upward(e, p, v))
  {
    forall k | Transparent(e, k) ensures Exempt(e, k) { TransparentIsExempt(e, k); }
    UpIgnoresDown(e, e, p, v);
    DownThenUpSettles(e, e, p, v);
  }

  lemma OneMore(e: Equality, p: KV, v: KV, down: bool, up: bool, step: Direction)
    ensures Step(e, RunOnce(e, p, v, down, up), step) == RunOnce(e, p, v, down || step.Downward?, up || step.Upwards?)
  {
    forall k | Transparent(e, k) ensures Exempt(e, k) { TransparentIsExempt(e, k); }
    Undisturbed(e, e, p, v);
    Repeated(e, p, v);
    BothSettle(e, p, v);
  }

  /** Running one direction again changes nothing. */
  lemma Repeated(e: Equality, p: KV, v: KV)
    ensures Down(e, Down(e, p, v), v) == Down(e, p, v) && Upward(e, p, Upward(e, p, v)) == Upward(e, p, v)
  {
    forall k ensures SameAt(Down(e, Down(e, p, v), v), Down(e, p, v), k) { }
    forall k ensures SameAt(Upward(e, p, Upward(e, p, v)), Upward(e, p, v), k) { }
  }

  // ----- The checks -----

  method HasPrefixInArray(k: string, prefixes: seq<string>) returns (r: bool)
    ensures r <==> exists i :: 0 <= i < |prefixes| && HasPrefix(k, prefixes[i])
  {
    for i := 0 to |prefixes|
      invariant forall j | 0 <= j < i :: !HasPrefix(k, prefixes[j])
    {
      if HasPrefix(k, prefixes[i]) {
        return true;
      }
    }
    return false;
  }

  method IsOpaquedKey(e: Equality, k: string) returns (r: bool)
    ensures r <==> e.opaqueDomains.Some? && exists d | d in e.opaqueDomains.value :: HasSuffix(Domain(k), d)
    ensures r <==> InOpaqueDomain(e, k)
  {
    OpaqueIff(e, k);
    if e.opaqueDomains.None? {
      return false;
    }
    var domains := e.opaqueDomains.value;
    for i := 0 to |domains|
      invariant forall j | 0 <= j < i :: !HasSuffix(Domain(k), domains[j])
    {
      if HasSuffix(Domain(k), domains[i]) {
        assert domains[i] in domains;
        return true;
      }
    }
    return false;
  }

  method IsExempt(e: Equality, k: string) returns (r: bool)
    ensures r <==> Exempt(e, k)
  {
    r := HasPrefixInArray(k, Exceptions(e));
    if !r {
      r := IsOpaquedKey(e, k);
    }
  }

  /** The entries of the tenant that the super cluster lacks or has with another value, in whatever
      order the keys come. */
  method MoreOrDiff(e: Equality, p: KV, v: KV) returns (m: KV)
    ensures forall k :: k in m <==> k in v && !Exempt(e, k) && !SameAt(p, v, k)
    ensures forall k | k in m :: m[k] == v[k]
  {
    var keys := v.Keys;
    m := map[];
    while keys != {}
      invariant keys <= v.Keys
      invariant forall k :: k in m <==> k in v.Keys - keys && !Exempt(e, k) && !SameAt(p, v, k)
      invariant forall k | k in m :: m[k] == v[k]
    {
      var k :| k in keys;
      keys := keys - {k};
      var exempt := IsExempt(e, k);
      if !exempt && (k !in p || p[k] != v[k]) {
        m := m[k := v[k]];
      }
    }
  }

  /** The keys that only the super cluster has and that are not its own. */
  method MissingInTenant(e: Equality, p: KV, v: KV) returns (less: set<string>)
    ensures forall k :: k in less <==> k in p && !Exempt(e, k) && k !in v
  {
    var keys := p.Keys;
    less := {};
    while keys != {}
      invariant keys <= p.Keys
      invariant forall k :: k in less <==> k in p.Keys - keys && !Exempt(e, k) && k !in v
    {
      var k :| k in keys;
      keys := keys - {k};
      var exempt := IsExempt(e, k);
      if !exempt && k !in v {
        less := less + {k};
      }
    }
  }

  /** `checkDWKVEquality`: whether the super cluster's map is as it should be, or else what it should be. */
  method CheckDWKVEquality(e: Equality, p: KV, v: KV) returns (updated: Option<KV>)
    ensures updated == if Down(e, p, v) == p then None else Some(Down(e, p, v))
    ensures HeldDown(e, p, v, if updated.None? then p else updated.value)
  {
    DownHolds(e, p, v);
    var more := MoreOrDiff(e, p, v);
    var less := MissingInTenant(e, p, v);
    ghost var w := (p - less) + more;
    assert w == Down(e, p, v) by {
      forall k ensures SameAt(w, Down(e, p, v), k) { }
    }
    if more == map[] && less == {} {
      return None;
    }
    assert w != p by {
      if k :| k in more { assert w[k] == v[k]; } else { var k :| k in less; assert k !in w; }
    }
    return Some((p - less) + more);
  }

  /** `checkUWKVEquality`. */
  method CheckUWKVEquality(e: Equality, p: KV, v: KV) returns (updated: Option<KV>)
    ensures updated == if Upward(e, p, v) == v then None else Some(Upward(e, p, v))
    ensures HeldUp(e, p, v, if updated.None? then v else updated.value)
  {
    UpHolds(e, p, v);
    if e.tenant.None? {
      assert Upward(e, p, v) == v;
      return None;
    }
    var matching := [TRANSPARENT_PREFIX] + e.tenant.value.transparent;
    var keys, more := p.Keys, map[];
    while keys != {}
      invariant keys <= p.Keys
      invariant forall k :: k in more <==> k in p.Keys - keys && Transparent(e, k) && !SameAt(p, v, k)
      invariant forall k | k in more :: more[k] == p[k]
    {
      var k :| k in keys;
      keys := keys - {k};
      var found := HasPrefixInArray(k, matching);
      MatchingIsTransparent(e, k);
      if found && (k !in v || p[k] != v[k]) {
        more := more[k := p[k]];
      }
    }
    ghost var w := v + more;
    assert w == Upward(e, p, v) by {
      forall k ensures SameAt(w, Upward(e, p, v), k) { }
    }
    if more == map[] {
      return None;
    }
    assert w != v by { var k :| k in more; assert w[k] == p[k]; }
    return Some(v + more);
  }

  lemma MatchingIsTransparent(e: Equality, k: string)
    requires e.tenant.Some?
    ensures var m := [TRANSPARENT_PREFIX] + e.tenant.value.transparent;
      Transparent(e, k) <==> exists i :: 0 <= i < |m| && HasPrefix(k, m[i])
  {
    var t := e.tenant.value.transparent;
    var m := [TRANSPARENT_PREFIX] + t;
    if Transparent(e, k) {
      if HasPrefix(k, TRANSPARENT_PREFIX) {
        assert m[0] == TRANSPARENT_PREFIX;
      } else {
        var i :| 0 <= i < |t| && HasPrefix(k, t[i]);
        assert m[i + 1] == t[i];
      }
    }
  }

  // ----- Object metadata -----

  datatype Meta = Meta(generateName: string, clusterName: string, labels: KV, annotations: KV, others: string)

  ghost function DownMeta(e: Equality, p: Meta, v: Meta): Meta {
    Meta(v.generateName, v.clusterName, Down(e, p.labels, v.labels), Down(e, p.annotations, v.annotations), p.others)
  }

  ghost function UpMeta(e: Equality, p: Meta, v: Meta): Meta {
    v.(labels := Upward(e, p.labels, v.labels), annotations := Upward(e, p.annotations, v.annotations))
  }

  /** `CheckDWObjectMetaEquality`. */
  method CheckDWObjectMetaEquality(e: Equality, p: Meta, v: Meta) returns (updated: Option<Meta>)
    ensures updated == if DownMeta(e, p, v) == p then None else Some(DownMeta(e, p, v))
    ensures var r := if updated.None? then p else updated.value;
      && r.generateName == v.generateName && r.clusterName == v.clusterName && r.others == p.others
      && HeldDown(e, p.labels, v.labels, r.labels) && HeldDown(e, p.annotations, v.annotations, r.annotations)
  {
    updated := None;
    if p.generateName != v.generateName {
      updated := Some(p.(generateName := v.generateName));
    }
    var labels := CheckDWKVEquality(e, p.labels, v.labels);
    if labels.Some? {
      updated := Some((if updated.None? then p else updated.value).(labels := labels.value));
    }
    var annotations := CheckDWKVEquality(e, p.annotations, v.annotations);
    if annotations.Some? {
      updated := Some((if updated.None? then p else updated.value).(annotations := annotations.value));
    }
    if p.clusterName != v.clusterName {
      updated := Some((if updated.None? then p else updated.value).(clusterName := v.clusterName));
    }
  }

  /** `CheckUWObjectMetaEquality`. */
  method CheckUWObjectMetaEquality(e: Equality, p: Meta, v: Meta) returns (updated: Option<Meta>)
    ensures updated == if UpMeta(e, p, v) == v then None else Some(UpMeta(e, p, v))
    ensures var r := if updated.None? then v else updated.value;
      && r == v.(labels := r.labels, annotations := r.annotations)
      && HeldUp(e, p.labels, v.labels, r.labels) && HeldUp(e, p.annotations, v.annotations, r.annotations)
  {
    updated := None;
    var labels := CheckUWKVEquality(e, p.labels, v.labels);
    if labels.Some? {
      updated := Some(v.(labels := labels.value));
    }
    var annotations := CheckUWKVEquality(e, p.annotations, v.annotations);
    if annotations.Some? {
      updated := Some((if updated.None? then v else updated.value).(annotations := annotations.value));
    }
  }

  /** After one downward and one upward sync of the metadata, neither check has anything to update. */
  lemma MetaSettles(e: Equality, p: Meta, v: Meta)
    ensures var p1 := DownMeta(e, p, v); var v1 := UpMeta(e, p1, v);
      DownMeta(e, p1, v1) == p1 && UpMeta(e, p1, v1) == v1
  {
    DownThenUpSettles(e, e, p.labels, v.labels);
    DownThenUpSettles(e, e, p.annotations, v.annotations);
  }
}
