/** Objects as the API server stores them, reduced to what propagation looks at. */
module Objects {
  import opened Names
  import opened Text

  const META_GROUP: string := "hnc.x-k8s.io"
  const LABEL_INHERITED_FROM: string := "hnc.x-k8s.io/inherited-from"
  const LABEL_MANAGED_BY_APPS: string := "app.kubernetes.io/managed-by"

  /** A group/version/kind. */
  type Kind = string

  datatype Obj = Obj(
    labels: map<string, string>,
    annotations: map<string, string>,
    finalizers: seq<string>,
    content: string,
    status: string)

  /** The part of a label or annotation key before the first `/`, or nothing if there is none. */
  function MetaPrefix(s: string): (p: string)
    ensures '/' !in s ==> p == ""
    ensures '/' in s ==> p + "/" <= s && '/' !in p
    decreases |s|
  {
    if '/' !in s then ""
    else if s[0] == '/' then ""
    else
      assert s == [s[0]] + s[1..];
      [s[0]] + MetaPrefix(s[1..])
  }

  /** Keys that belong to HNC and are not part of the canonical object. */
  predicate IsHncKey(k: string) {
    HasSuffix(MetaPrefix(k), META_GROUP)
  }

  function StripHnc(m: map<string, string>): map<string, string> {
    map k | k in m && !IsHncKey(k) :: m[k]
  }

  /** The object with its name, content and non-HNC labels and annotations only. */
  function Canonical(o: Obj): Obj {
    Obj(StripHnc(o.labels), StripHnc(o.annotations), [], o.content, "")
  }

  predicate Inherited(o: Obj) {
    LABEL_INHERITED_FROM in o.labels
  }

  /** What is stored in the forest for a source object. */
  function CleanSource(o: Obj, unpropagated: set<string>): Obj {
    o.(annotations := o.annotations - unpropagated, labels := o.labels[LABEL_MANAGED_BY_APPS := META_GROUP])
  }

  /** The copy written for the source `src` of namespace `from`. */
  function CopyOf(src: Obj, from: Name): Obj {
    var c := Canonical(src);
    c.(labels := c.labels[LABEL_INHERITED_FROM := from.text])
  }

  lemma {:induction false} PrefixBeforeSlash(p: string, rest: string)
    requires '/' !in p
    ensures MetaPrefix(p + "/" + rest) == p
    decreases |p|
  {
    var s := p + "/" + rest;
    assert s[|p|] == '/';
    if p != [] {
      assert s[0] == p[0];
      assert s[1..] == p[1..] + "/" + rest;
      PrefixBeforeSlash(p[1..], rest);
    }
  }

  lemma InheritedLabelIsHnc()
    ensures IsHncKey(LABEL_INHERITED_FROM)
  {
    assert LABEL_INHERITED_FROM == META_GROUP + "/" + "inherited-from";
    PrefixBeforeSlash(META_GROUP, "inherited-from");
  }

  lemma StripAgain(m: map<string, string>, k: string, v: string)
    requires IsHncKey(k)
    ensures StripHnc(StripHnc(m)[k := v]) == StripHnc(m)
    ensures StripHnc(StripHnc(m)) == StripHnc(m)
  {
  }

  /** A copy is canonically equal to its source, carries the label, and names where it came from;
      so a copy that was just written is found up to date. */
  lemma CopyIsCanonical(src: Obj, from: Name)
    ensures Canonical(CopyOf(src, from)) == Canonical(src)
    ensures Inherited(CopyOf(src, from)) && CopyOf(src, from).labels[LABEL_INHERITED_FROM] == from.text
  {
    InheritedLabelIsHnc();
    StripAgain(src.labels, LABEL_INHERITED_FROM, from.text);
    StripAgain(src.annotations, LABEL_INHERITED_FROM, from.text);
  }

  // ----- What a copy holds -----

  lemma KeysAre()
    ensures META_GROUP == "hnc.x-k8s.io" && LABEL_INHERITED_FROM == "hnc.x-k8s.io/inherited-from"
    ensures LABEL_MANAGED_BY_APPS == "app.kubernetes.io/managed-by"
  {
  }

  /** The key is `p`, a slash and `rest`, where `p` has no slash. */
  ghost predicate KeyIn(k: string, p: string, rest: string) {
    k == p + "/" + rest && '/' !in p
  }

  /** The key has a prefix that ends in `hnc.x-k8s.io`. */
  ghost predicate Reserved(k: string) {
    exists p, rest :: KeyIn(k, p, rest) && EndsIn(p, META_GROUP)
  }

  lemma HncKeyIff(k: string)
    ensures IsHncKey(k) <==> Reserved(k)
  {
    HasSuffixIff(MetaPrefix(k), META_GROUP);
    if IsHncKey(k) {
      var p := MetaPrefix(k);
      assert k == p + "/" + k[|p| + 1..];
      assert KeyIn(k, p, k[|p| + 1..]);
    }
    if p, rest :| KeyIn(k, p, rest) && EndsIn(p, META_GROUP) { PrefixBeforeSlash(p, rest); }
  }

  /** `m` has exactly the entries of `src` whose keys are not reserved, apart from reserved ones of its own. */
  ghost predicate SameUnreserved(m: map<string, string>, src: map<string, string>) {
    forall k | !Reserved(k) :: (k in m <==> k in src) && (k in m ==> m[k] == src[k])
  }

  /** `o` says that it comes from `from`, and has the content and all labels and annotations of `src` that are not
      reserved, and no others. */
  ghost predicate Mirrors(o: Obj, src: Obj, from: Name) {
    && LABEL_INHERITED_FROM in o.labels && o.labels[LABEL_INHERITED_FROM] == from.text
    && SameUnreserved(o.labels, src.labels) && SameUnreserved(o.annotations, src.annotations)
    && o.content == src.content
  }

  /** Besides, it has no other reserved labels or annotations, no finalizers and no status. */
  ghost predicate WrittenFrom(o: Obj, src: Obj, from: Name) {
    && Mirrors(o, src, from) && o.finalizers == [] && o.status == ""
    && (forall k | k in o.labels && Reserved(k) :: k == LABEL_INHERITED_FROM)
    && (forall k | k in o.annotations :: !Reserved(k))
  }

  lemma StripHolds(m: map<string, string>, k: string)
    ensures k in StripHnc(m) <==> k in m && !Reserved(k)
    ensures k in StripHnc(m) ==> StripHnc(m)[k] == m[k]
  {
    HncKeyIff(k);
  }

  lemma StripSameIff(m: map<string, string>, n: map<string, string>)
    ensures StripHnc(m) == StripHnc(n) <==> SameUnreserved(m, n)
  {
    forall k ensures (k in StripHnc(m) <==> k in m && !Reserved(k)) && (k in StripHnc(n) <==> k in n && !Reserved(k)) {
      StripHolds(m, k);
      StripHolds(n, k);
    }
    if StripHnc(m) == StripHnc(n) {
      forall k | !Reserved(k) ensures (k in m <==> k in n) && (k in m ==> m[k] == n[k]) {
        assert k in m ==> StripHnc(m)[k] == StripHnc(n)[k];
      }
    }
  }

  /** Objects are canonically equal exactly if they have the same content, and the same labels and annotations
      apart from reserved ones. */
  lemma CanonicalIff(o: Obj, p: Obj)
    ensures Canonical(o) == Canonical(p) <==>
      SameUnreserved(o.labels, p.labels) && SameUnreserved(o.annotations, p.annotations) && o.content == p.content
  {
    StripSameIff(o.labels, p.labels);
    StripSameIff(o.annotations, p.annotations);
  }

  /** What is written as a copy. */
  lemma CopyHolds(src: Obj, from: Name)
    ensures WrittenFrom(CopyOf(src, from), src, from)
  {
    InheritedLabelIsHnc();
    HncKeyIff(LABEL_INHERITED_FROM);
    StripIs(src.labels);
    StripIs(src.annotations);
    LabelAdded(StripHnc(src.labels), src.labels, LABEL_INHERITED_FROM, from.text);
  }

  lemma StripIs(m: map<string, string>)
    ensures SameUnreserved(StripHnc(m), m) && forall k | k in StripHnc(m) :: !Reserved(k)
  {
    forall k ensures (k in StripHnc(m) <==> k in m && !Reserved(k)) && (k in StripHnc(m) ==> StripHnc(m)[k] == m[k]) {
      StripHolds(m, k);
    }
  }

  lemma LabelAdded(m: map<string, string>, src: map<string, string>, key: string, v: string)
    requires SameUnreserved(m, src) && Reserved(key) && forall k | k in m :: !Reserved(k)
    ensures SameUnreserved(m[key := v], src) && forall k | k in m[key := v] && Reserved(k) :: k == key
  {
  }

  /** `r` is what is recorded of a source `o`: all of it, less the annotations that are not propagated, and marked as
      managed by HNC. */
  ghost predicate IsRecordOf(r: Obj, o: Obj, unpropagated: set<string>) {
    && r.content == o.content && r.finalizers == o.finalizers && r.status == o.status
    && (forall k :: k in r.annotations <==> k in o.annotations && k !in unpropagated)
    && (forall k | k in r.annotations :: r.annotations[k] == o.annotations[k])
    && LABEL_MANAGED_BY_APPS in r.labels && r.labels[LABEL_MANAGED_BY_APPS] == META_GROUP
    && (forall k | k != LABEL_MANAGED_BY_APPS ::
          (k in r.labels <==> k in o.labels) && (k in r.labels ==> r.labels[k] == o.labels[k]))
  }

  lemma CleanSourceIff(r: Obj, o: Obj, unpropagated: set<string>)
    ensures r == CleanSource(o, unpropagated) <==> IsRecordOf(r, o, unpropagated)
  {
    var c := CleanSource(o, unpropagated);
    if IsRecordOf(r, o, unpropagated) {
      assert r.annotations == c.annotations;
      assert r.labels == c.labels;
    }
  }

  /** `o` is a copy of the object `src` of namespace `from`, as it is stored there. */
  ghost predicate CopiedFrom(o: Obj, src: Obj, from: Name, unpropagated: set<string>) {
    && LABEL_INHERITED_FROM in o.labels && o.labels[LABEL_INHERITED_FROM] == from.text
    && LABEL_MANAGED_BY_APPS in o.labels && o.labels[LABEL_MANAGED_BY_APPS] == META_GROUP
    && (forall k | !Reserved(k) && k != LABEL_MANAGED_BY_APPS ::
          (k in o.labels <==> k in src.labels) && (k in o.labels ==> o.labels[k] == src.labels[k]))
    && (forall k | !Reserved(k) ::
          (k in o.annotations <==> k in src.annotations && k !in unpropagated)
          && (k in o.annotations ==> o.annotations[k] == src.annotations[k]))
    && o.content == src.content
  }

  const APPS_DOMAIN: string := "app.kubernetes.io"

  lemma ManagedKey()
    ensures LABEL_MANAGED_BY_APPS == APPS_DOMAIN + "/" + "managed-by"
  {
  }

  lemma DomainHasNot()
    ensures '/' !in APPS_DOMAIN && 'h' !in APPS_DOMAIN
  {
  }

  lemma ManagedByIsNotReserved()
    ensures !Reserved(LABEL_MANAGED_BY_APPS)
  {
    ManagedKey();
    DomainHasNot();
    OtherDomain(APPS_DOMAIN, "managed-by", 'h');
  }

  lemma OtherDomain(p: string, rest: string, c: char)
    requires '/' !in p && c !in p && c == META_GROUP[0]
    ensures !Reserved(p + "/" + rest)
  {
    PrefixBeforeSlash(p, rest);
    HncKeyIff(p + "/" + rest);
    HasNot(p, META_GROUP, c);
  }

  lemma HasNot(s: string, p: string, c: char)
    requires c !in s && c in p
    ensures !HasSuffix(s, p)
  {
  }

  /** What mirrors a record is a copy of the recorded object. */
  lemma MirrorsRecord(o: Obj, r: Obj, src: Obj, from: Name, unpropagated: set<string>)
    requires Mirrors(o, r, from) && IsRecordOf(r, src, unpropagated)
    ensures CopiedFrom(o, src, from, unpropagated)
  {
    ManagedByIsNotReserved();
  }
}
