/** The selectors that an object carries in its annotations, and what the tree selector means in terms of
    the hierarchy. */
module TreeSelector {
  import opened Names
  import opened Text
  import opened Objects
  import opened ParentLinks
  import opened Cycles
  import opened ForestState
  import opened LabelSync
  import H = HierarchySteps
  import P = Propagation
  import L = PropagationLimits
  import R = ObjectReconciler

  const SELECT := "propagate.hnc.x-k8s.io/select"
  const TREE_SELECT := "propagate.hnc.x-k8s.io/treeSelect"
  const NONE := "propagate.hnc.x-k8s.io/none"

  // ----- Reading the annotation -----

  /** `unicode.IsSpace`. */
  predicate IsSpace(c: char) {
    || c == ' ' || '\U{9}' <= c <= '\U{d}' || c == '\U{85}' || c == '\U{a0}' || c == '\U{1680}'
    || '\U{2000}' <= c <= '\U{200a}'
    || c == '\U{2028}' || c == '\U{2029}' || c == '\U{202f}' || c == '\U{205f}' || c == '\U{3000}'
  }

  /** `strings.TrimSpace`. */
  function Trim(s: string): string {
    if s == [] then []
    else if IsSpace(s[0]) then Trim(s[1..])
    else if IsSpace(s[|s| - 1]) then Trim(s[..|s| - 1])
    else s
  }

  predicate IsAlnum(c: char) {
    'a' <= c <= 'z' || '0' <= c <= '9'
  }

  /** A DNS label as in RFC 1123, in lower case. */
  predicate IsDNSLabel(s: string) {
    && 0 < |s| <= 63 && IsAlnum(s[0]) && IsAlnum(s[|s| - 1])
    && forall i | 0 <= i < |s| :: IsAlnum(s[i]) || s[i] == '-'
  }

  /** The label key of the depth below `name` must exist, or if negated must not. */
  datatype Requirement = Requirement(name: Name, negated: bool)

  /** `Crashes`: the index expression on an empty segment is out of range. */
  datatype Selector = NoSelector | Requires(all: seq<Requirement>) | Invalid | Crashes

  predicate Negated(seg: string) {
    seg != [] && seg[0] == '!'
  }

  function Target(seg: string): string {
    if Negated(seg) then seg[1..] else seg
  }

  function RequirementOf(seg: string): Requirement {
    Requirement(Name(Target(seg)), Negated(seg))
  }

  function TrimAll(segs: seq<string>): seq<string> {
    if segs == [] then [] else TrimAll(segs[..|segs| - 1]) + [Trim(segs[|segs| - 1])]
  }

  /** The trimmed segments of an annotation. */
  function Segments(annotation: string): seq<string> {
    TrimAll(Split(annotation, ','))
  }

  predicate AllValid(segs: seq<string>) {
    forall i | 0 <= i < |segs| :: IsDNSLabel(Target(segs[i]))
  }

  /** The first segment that is not valid is empty. */
  predicate EmptyFirst(segs: seq<string>) {
    exists i :: 0 <= i < |segs| && segs[i] == [] && AllValid(segs[..i])
  }

  predicate OnePositive(segs: seq<string>) {
    forall i, j | 0 <= i < j < |segs| :: Negated(segs[i]) || Negated(segs[j])
  }

  function SelectorOf(annotation: string): Selector {
    if annotation == "" then NoSelector else FromSegments(Segments(annotation))
  }

  function FromSegments(segs: seq<string>): Selector {
    if EmptyFirst(segs) then Crashes
    else if AllValid(segs) && OnePositive(segs) then
      Requires(seq(|segs|, i requires 0 <= i < |segs| => RequirementOf(segs[i])))
    else Invalid
  }

  lemma {:induction false} TrimAllAt(segs: seq<string>)
    ensures |TrimAll(segs)| == |segs| && forall i | 0 <= i < |segs| :: TrimAll(segs)[i] == Trim(segs[i])
  {
    if segs != [] { TrimAllAt(segs[..|segs| - 1]); }
  }

  /** `GetTreeSelector`, with the selector as the list of its requirements. */
  method GetTreeSelector(annotation: string) returns (r: Selector)
    ensures r == SelectorOf(annotation)
  {
    if annotation == "" {
      return NoSelector;
    }
    var segs := Split(annotation, ',');
    TrimAllAt(segs);
    ghost var trimmed := Segments(annotation);
    var all: seq<Requirement>, positive: seq<string> := [], [];
    for i := 0 to |segs|
      invariant Scanned(trimmed, i, all, |positive|)
    {
      var failure;
      failure, all, positive := ScanSegment(Trim(segs[i]), trimmed, i, all, positive);
      if failure.Some? {
        return failure.value;
      }
    }
    ScanEnds(trimmed, all, |positive|);
    return if |positive| > 1 then Invalid else Requires(all);
  }

  /** One turn of the loop. */
  method ScanSegment(seg: string, ghost segs: seq<string>, ghost i: nat, all: seq<Requirement>, positive: seq<string>)
    returns (failure: Option<Selector>, all': seq<Requirement>, positive': seq<string>)
    requires i < |segs| && seg == segs[i] && Scanned(segs, i, all, |positive|)
    ensures failure.Some? ==> failure.value == FromSegments(segs)
    ensures failure.None? ==> Scanned(segs, i + 1, all', |positive'|)
  {
    failure, all', positive' := None, all, positive;
    if seg == "" {
      EmptySegment(segs, i);
      return Some(Crashes), all, positive;
    }
    if !IsDNSLabel(Target(seg)) {
      BadSegment(segs, i);
      return Some(Invalid), all, positive;
    }
    ScanStep(segs, i, all, |positive|);
    if seg[0] != '!' {
      positive' := positive + [seg];
    }
    all' := all + [RequirementOf(seg)];
  }

  /** The first `i` segments are valid, and `positives` of them are not negated. */
  ghost predicate Scanned(segs: seq<string>, i: nat, all: seq<Requirement>, positives: nat) {
    && i <= |segs| && AllValid(segs[..i]) && |all| == i
    && (forall j | 0 <= j < i :: all[j] == RequirementOf(segs[j]))
    && Counted(segs, i, positives)
  }

  ghost predicate Counted(segs: seq<string>, i: nat, positives: nat)
    requires i <= |segs|
  {
    && (positives == 0 <==> forall j | 0 <= j < i :: Negated(segs[j]))
    && (positives <= 1 <==> OnePositive(segs[..i]))
  }

  lemma CountOne(segs: seq<string>, i: nat, positives: nat)
    requires i < |segs| && Counted(segs, i, positives)
    ensures Counted(segs, i + 1, if Negated(segs[i]) then positives else positives + 1)
  {
    OneMorePositive(segs, i);
  }

  lemma ScanStep(segs: seq<string>, i: nat, all: seq<Requirement>, positives: nat)
    requires i < |segs| && Scanned(segs, i, all, positives) && IsDNSLabel(Target(segs[i]))
    ensures Scanned(segs, i + 1, all + [RequirementOf(segs[i])], if Negated(segs[i]) then positives else positives + 1)
  {
    OneMoreValid(segs, i);
    CountOne(segs, i, positives);
  }

  lemma OneMoreValid(segs: seq<string>, i: nat)
    requires i < |segs| && AllValid(segs[..i]) && IsDNSLabel(Target(segs[i]))
    ensures AllValid(segs[..i + 1])
  {
    var more := segs[..i + 1];
    forall j | 0 <= j < i + 1 ensures IsDNSLabel(Target(more[j])) {
      assert j < i ==> segs[..i][j] == more[j];
    }
  }

  lemma ScanEnds(segs: seq<string>, all: seq<Requirement>, positives: nat)
    requires Scanned(segs, |segs|, all, positives)
    ensures FromSegments(segs) == if positives > 1 then Invalid else Requires(all)
  {
    assert segs[..|segs|] == segs;
    NoneEmpty(segs);
  }

  /** For instance, a comma at the end of the annotation. */
  lemma TrailingCommaCrashes()
    ensures SelectorOf("a,") == Crashes
  {
    SplitFirst("a", "", ',');
    assert "a" + [','] + "" == "a,";
    var segs := ["a", ""];
    TrimAllAt(segs);
    assert IsAlnum('a') && Trim("a") == "a";
    assert Segments("a,") == segs;
    assert segs[..1] == ["a"] && AllValid(segs[..1]);
    EmptySegment(segs, 1);
  }

  lemma EmptySegment(segs: seq<string>, i: nat)
    requires i < |segs| && AllValid(segs[..i]) && segs[i] == []
    ensures FromSegments(segs) == Crashes
  {
  }

  lemma BadSegment(segs: seq<string>, i: nat)
    requires i < |segs| && AllValid(segs[..i]) && segs[i] != [] && !IsDNSLabel(Target(segs[i]))
    ensures FromSegments(segs) == Invalid
  {
    forall j | 0 <= j < i ensures segs[j] != [] {
      assert segs[..i][j] == segs[j] && IsDNSLabel(Target(segs[..i][j]));
    }
    forall j | i < j <= |segs| ensures !AllValid(segs[..j]) { assert segs[..j][i] == segs[i]; }
  }

  lemma NoneEmpty(segs: seq<string>)
    requires AllValid(segs)
    ensures !EmptyFirst(segs)
  {
    forall i | 0 <= i < |segs| ensures segs[i] != [] { assert IsDNSLabel(Target(segs[i])); }
  }

  lemma OneMorePositive(segs: seq<string>, i: nat)
    requires i < |segs|
    ensures OnePositive(segs[..i + 1]) <==>
      OnePositive(segs[..i]) && (Negated(segs[i]) || forall j | 0 <= j < i :: Negated(segs[j]))
  {
    var a, b := segs[..i], segs[..i + 1];
    if OnePositive(b) {
      forall j, k | 0 <= j < k < |a| ensures Negated(a[j]) || Negated(a[k]) { assert a[j] == b[j] && a[k] == b[k]; }
      forall j | 0 <= j < i ensures Negated(segs[i]) || Negated(segs[j]) { assert b[j] == segs[j] && b[i] == segs[i]; }
    } else if OnePositive(a) {
      forall j, k | 0 <= j < k < i ensures Negated(segs[j]) || Negated(segs[k]) {
        assert a[j] == segs[j] && a[k] == segs[k];
      }
      var j, k :| 0 <= j < k < |b| && !Negated(b[j]) && !Negated(b[k]);
      assert b[j] == segs[j] && b[k] == segs[k];
    }
  }

  // ----- Writing a selector -----

  /** How a requirement is written, and a list of them. */
  function Written(r: Requirement): string {
    if r.negated then "!" + r.name.text else r.name.text
  }

  function AllWritten(all: seq<Requirement>): seq<string> {
    seq(|all|, i requires 0 <= i < |all| => Written(all[i]))
  }

  lemma WrittenIsPlain(r: Requirement)
    requires IsDNSLabel(r.name.text)
    ensures Plain(Written(r), ',') && Trim(Written(r)) == Written(r) && RequirementOf(Written(r)) == r
    ensures IsDNSLabel(Target(Written(r))) && Negated(Written(r)) == r.negated
  {
    var w, s := Written(r), r.name.text;
    forall i | 0 <= i < |w| ensures w[i] != ',' && !IsSpace(w[i]) {
      var j := if r.negated then i - 1 else i;
      if j >= 0 { assert w[i] == s[j]; }
    }
    if r.negated { assert w[1..] == s; }
  }

  /** Names that are separated by commas, perhaps with an exclamation mark in front, are read as they are written, if
      not more than one of them is without the mark. */
  lemma WrittenIsRead(all: seq<Requirement>)
    requires all != [] && forall i | 0 <= i < |all| :: IsDNSLabel(all[i].name.text)
    ensures SelectorOf(Join(AllWritten(all), ',')) ==
      if forall i, j | 0 <= i < j < |all| :: all[i].negated || all[j].negated then Requires(all) else Invalid
  {
    SegmentsAreWritten(all);
    forall i | 0 <= i < |all| ensures ReadsAs(AllWritten(all)[i], all[i]) { WrittenIsPlain(all[i]); }
    FromWritten(AllWritten(all), all);
  }

  predicate ReadsAs(seg: string, r: Requirement) {
    RequirementOf(seg) == r && IsDNSLabel(Target(seg))
  }

  lemma SegmentsAreWritten(all: seq<Requirement>)
    requires all != [] && forall i | 0 <= i < |all| :: IsDNSLabel(all[i].name.text)
    ensures Segments(Join(AllWritten(all), ',')) == AllWritten(all) && Join(AllWritten(all), ',') != ""
  {
    var segs := AllWritten(all);
    forall i | 0 <= i < |segs| ensures Plain(segs[i], ',') && Trim(segs[i]) == segs[i] { WrittenIsPlain(all[i]); }
    SplitJoin(segs, ',');
    TrimAllAt(segs);
    assert TrimAll(segs) == segs;
    JoinNotEmpty(segs);
  }

  lemma FromWritten(segs: seq<string>, all: seq<Requirement>)
    requires |segs| == |all|
    requires forall i | 0 <= i < |segs| :: ReadsAs(segs[i], all[i])
    ensures FromSegments(segs) ==
      if forall i, j | 0 <= i < j < |all| :: all[i].negated || all[j].negated then Requires(all) else Invalid
  {
    forall i | 0 <= i < |segs| ensures IsDNSLabel(Target(segs[i])) && Negated(segs[i]) == all[i].negated {
      assert ReadsAs(segs[i], all[i]);
    }
    NoneEmpty(segs);
    if OnePositive(segs) {
      assert seq(|segs|, i requires 0 <= i < |segs| => RequirementOf(segs[i])) == all;
      forall i, j | 0 <= i < j < |all| ensures all[i].negated || all[j].negated {
        assert Negated(segs[i]) || Negated(segs[j]);
      }
    }
  }

  lemma JoinNotEmpty(segs: seq<string>)
    requires segs != [] && segs[0] != ""
    ensures Join(segs, ',') != ""
  {
  }

  predicate AllSpaces(s: string) {
    forall i | 0 <= i < |s| :: IsSpace(s[i])
  }

  /** `middle` is `s` without some spaces at both ends. */
  predicate SpacesAround(s: string, front: string, middle: string, back: string) {
    s == front + middle + back && AllSpaces(front) && AllSpaces(back)
  }

  /** Trimming takes away spaces at both ends, and all of them. */
  lemma {:induction false} TrimIs(s: string) returns (front: string, back: string)
    ensures s == front + Trim(s) + back && AllSpaces(front) && AllSpaces(back)
    ensures Trim(s) != "" ==> !IsSpace(Trim(s)[0]) && !IsSpace(Trim(s)[|Trim(s)| - 1])
    decreases |s|
  {
    front, back := "", "";
    if s == "" {
    } else if IsSpace(s[0]) {
      front, back := TrimIs(s[1..]);
      front := OneMoreInFront(s, front, Trim(s[1..]), back);
    } else if IsSpace(s[|s| - 1]) {
      front, back := TrimIs(s[..|s| - 1]);
      back := OneMoreAtBack(s, front, Trim(s[..|s| - 1]), back);
    }
  }

  lemma OneMoreInFront(s: string, front: string, middle: string, back: string) returns (front': string)
    requires s != "" && IsSpace(s[0]) && SpacesAround(s[1..], front, middle, back)
    ensures SpacesAround(s, front', middle, back)
  {
    front' := [s[0]] + front;
    assert s == [s[0]] + s[1..] == front' + middle + back;
  }

  lemma OneMoreAtBack(s: string, front: string, middle: string, back: string) returns (back': string)
    requires s != "" && IsSpace(s[|s| - 1]) && SpacesAround(s[..|s| - 1], front, middle, back)
    ensures SpacesAround(s, front, middle, back')
  {
    back' := back + [s[|s| - 1]];
    assert s == s[..|s| - 1] + [s[|s| - 1]] == front + middle + back';
  }

  // ----- Matching -----

  /** The keys of the labels of a namespace. */
  function Keys(labels: Labels): set<string> {
    (set n | n in labels.depths :: DepthKey(n)) + labels.others.Keys
  }

  function DepthKey(n: Name): string {
    n.text + DEPTH_SUFFIX
  }

  predicate Matches(all: seq<Requirement>, labels: Labels) {
    forall i | 0 <= i < |all| :: (DepthKey(all[i].name) in Keys(labels)) != all[i].negated
  }

  lemma KeyIffDepth(labels: Labels, n: Name)
    requires Separate(labels)
    ensures DepthKey(n) in Keys(labels) <==> n in labels.depths
  {
    assert HasSuffix(DepthKey(n), DEPTH_SUFFIX);
    forall m: Name | DepthKey(m) == DepthKey(n) ensures m == n {
      assert m.text == DepthKey(m)[..|DepthKey(m)| - |DEPTH_SUFFIX|];
      assert n.text == DepthKey(n)[..|DepthKey(n)| - |DEPTH_SUFFIX|];
    }
  }

  /** The tree selector of an object matches a namespace exactly if the name it asks for, if any, is in
      the chain and none of the names it excludes is. */
  lemma MatchesIff(s: State, n: Name, all: seq<Requirement>)
    requires Labelled(s, n) && NoneExternal(s, n)
    ensures Matches(all, s[n].info.labels) <==>
      forall r | r in all :: if r.negated then !InChain(s, n, r.name) else InChain(s, n, r.name)
  {
    var labels := s[n].info.labels;
    forall r | r in all ensures DepthKey(r.name) in Keys(labels) <==> InChain(s, n, r.name) {
      KeyIffDepth(labels, r.name);
      LabelsAreTheChain(s, n, r.name);
    }
    if Matches(all, labels) {
      forall r | r in all ensures if r.negated then !InChain(s, n, r.name) else InChain(s, n, r.name) {
        var i :| 0 <= i < |all| && all[i] == r;
      }
    } else {
      var i :| 0 <= i < |all| && (DepthKey(all[i].name) in Keys(labels)) == all[i].negated;
      assert all[i] in all;
    }
  }

  /** A valid tree selector asks for at most one name. */
  lemma AtMostOneName(annotation: string, r: Requirement, q: Requirement)
    requires SelectorOf(annotation).Requires?
    requires r in SelectorOf(annotation).all && q in SelectorOf(annotation).all && !r.negated && !q.negated
    ensures r == q
  {
    var segs, all := Segments(annotation), SelectorOf(annotation).all;
    var i: nat :| i < |all| && all[i] == r;
    var j: nat :| j < |all| && all[j] == q;
    OnlyOne(segs, all, i, j);
  }

  lemma OnlyOne(segs: seq<string>, all: seq<Requirement>, i: nat, j: nat)
    requires FromSegments(segs) == Requires(all) && i < |all| && j < |all| && !all[i].negated && !all[j].negated
    ensures i == j
  {
    assert |all| == |segs| && OnePositive(segs);
    assert all[i] == RequirementOf(segs[i]) && all[j] == RequirementOf(segs[j]);
  }

  // ----- Whether an object is copied -----

  /** A parsed label selector, over all labels of a namespace. */
  datatype PlainSelector = Unparsable | Selecting(matches: Labels -> bool)

  datatype Verdict = Yes | No | Error | Crash

  /** How the parts of the program that are not modelled read an object. */
  datatype Reading = Reading(parse: string -> PlainSelector, isToken: Obj -> bool)

  function Annotation(o: Obj, key: string): string {
    if key in o.annotations then o.annotations[key] else ""
  }

  /** `strconv.ParseBool`. */
  function ParseBool(s: string): Option<bool> {
    if s in {"1", "t", "T", "TRUE", "true", "True"} then Some(true)
    else if s in {"0", "f", "F", "FALSE", "false", "False"} then Some(false)
    else None
  }

  /** `ShouldPropagate`. */
  function ShouldPropagate(read: Reading, o: Obj, labels: Labels): Verdict {
    match read.parse(Annotation(o, SELECT))
    case Unparsable => Error
    case Selecting(matches) =>
      if !matches(labels) then No else
      var tree := SelectorOf(Annotation(o, TREE_SELECT));
      if tree.Crashes? then Crash
      else if tree.Invalid? then Error
      else if tree.Requires? && !Matches(tree.all, labels) then No
      else
        var none := Annotation(o, NONE);
        if none == "" || ParseBool(none) == Some(false) then Yes
        else if ParseBool(none).None? then Error else No
  }

  /** `shouldPropagateSource`, for a type in propagate mode. */
  predicate ShouldPropagateSource(read: Reading, kind: Kind, o: Obj, labels: Labels) {
    ShouldPropagate(read, o, labels).Yes? && o.finalizers == [] && !(kind == "Secret" && read.isToken(o))
  }

  /** What is annotated with `key` is nothing, or a way to say no. */
  predicate SaysNo(o: Obj, key: string) {
    key !in o.annotations || o.annotations[key] in {"", "0", "f", "F", "FALSE", "false", "False"}
  }

  /** An object is copied to a namespace with these labels exactly if its label selector can be read and selects them,
      its tree selector, if any, can be read and is met by them, it does not opt out, it has no finalizers, and it is
      not the secret of a service account. */
  lemma CopiedIff(read: Reading, kind: Kind, o: Obj, labels: Labels)
    ensures ShouldPropagateSource(read, kind, o, labels) <==>
      var sel := read.parse(Annotation(o, "propagate.hnc.x-k8s.io/select"));
      var tree := SelectorOf(Annotation(o, "propagate.hnc.x-k8s.io/treeSelect"));
      && sel.Selecting? && sel.matches(labels)
      && (tree.NoSelector? || (tree.Requires? && Matches(tree.all, labels)))
      && SaysNo(o, "propagate.hnc.x-k8s.io/none")
      && o.finalizers == [] && (kind == "Secret" ==> !read.isToken(o))
  {
  }

  /** Nothing but the tree selector makes a difference between namespaces. */
  ghost predicate OnlyTreeSelected(read: Reading, o: Obj) {
    var sel := read.parse(Annotation(o, SELECT));
    sel.Selecting? ==> forall a, b :: sel.matches(a) == sel.matches(b)
  }

  predicate Excludes(o: Obj, a: Name) {
    var tree := SelectorOf(Annotation(o, TREE_SELECT));
    tree.Requires? && Requirement(a, true) in tree.all
  }

  /** The tree selector excludes no name. */
  predicate AsksOnly(o: Obj) {
    var tree := SelectorOf(Annotation(o, TREE_SELECT));
    tree.Requires? ==> forall i | 0 <= i < |tree.all| :: !tree.all[i].negated
  }

  /** The hierarchy as propagation sees it, with the labels that the forest has recorded; `only` says
      which objects users create. */
  ghost function WorldOf(s: State, excluded: set<Name>, read: Reading, kind: Kind, unpropagated: set<string>,
    only: Obj -> bool): P.World {
    R.WorldOf(s, excluded,
      (o: Obj, n: Name) => only(o) && n in s && ShouldPropagateSource(read, kind, o, s[n].info.labels), unpropagated)
  }

  /** A walk that meets no stop goes up to the root. */
  lemma EveryoneIsMet(l: Links, stop: set<Name>, n: Name, a: Name, k: nat)
    requires WalkEnds(l, stop, n) && (forall m | Reach(l, n, m) :: m !in stop) && Up(l, n, k) == Some(a)
    ensures H.MetAt(l, stop, n, a, k)
  {
    forall j: nat | j <= k ensures !WalkOver(l, stop, n, j) {
      UpAdd(l, n, j, k - j);
      assert Reach(l, n, Up(l, n, j).value);
    }
    assert WalkLength(l, stop, n) > k;
  }

  /** Where nothing is halted, the chain is the namespace with all its ancestors. */
  lemma LiveChain(s: State, w: P.World, n: Name, a: Name)
    requires Labelled(s, n) && H.Externals(s) == {} && w.links == LinksOf(s) && w.crit == Crits(s) && P.Live(w, n)
    ensures InChain(s, n, a) <==> Reach(w.links, n, a)
  {
    var l, stop := LinksOf(s), H.Stops(s);
    H.CritWalkStops(s, n);
    if Reach(l, n, a) {
      var k: nat :| Up(l, n, k) == Some(a);
      EveryoneIsMet(l, stop, n, a, k);
    }
  }

  /** If an object would be copied to a namespace with labels `a`, what decides for `b` is the tree selector. */
  lemma TreeDecides(read: Reading, kind: Kind, o: Obj, a: Labels, b: Labels)
    requires OnlyTreeSelected(read, o) && ShouldPropagateSource(read, kind, o, a)
    ensures var tree := SelectorOf(Annotation(o, TREE_SELECT));
      && (tree.Requires? ==> Matches(tree.all, a))
      && (ShouldPropagateSource(read, kind, o, b) <==> (tree.Requires? ==> Matches(tree.all, b)))
  {
  }

  lemma NamesDecide(s: State, w: P.World, all: seq<Requirement>, n: Name, d: Name)
    requires Labelled(s, n) && Labelled(s, d) && H.Externals(s) == {} && w.links == LinksOf(s) && w.crit == Crits(s)
    requires P.Live(w, n) && P.Live(w, d) && Below(w.links, d, n) && Matches(all, s[n].info.labels)
    ensures Matches(all, s[d].info.labels) <==> forall r | r in all && r.negated :: !Reach(w.links, d, r.name)
  {
    MatchesIff(s, n, all);
    MatchesIff(s, d, all);
    ReachCases(w.links, d, n);
    forall r | r in all ensures InChain(s, d, r.name) <==> Reach(w.links, d, r.name) { LiveChain(s, w, d, r.name); }
    forall r | r in all && !r.negated ensures InChain(s, d, r.name) {
      LiveChain(s, w, n, r.name);
      ReachTransitive(w.links, d, n, r.name);
    }
  }

  /** An object that would be copied to `n` would also be copied to a namespace below exactly if its tree
      selector excludes no ancestor of that namespace, and not the namespace itself. */
  lemma SkippedIffExcluded(s: State, w: P.World, read: Reading, kind: Kind, only: Obj -> bool, o: Obj, n: Name, d: Name)
    requires Ready(s) && w == WorldOf(s, w.excluded, read, kind, w.unpropagated, only)
    requires P.Live(w, n) && P.Live(w, d) && Below(w.links, d, n)
    requires OnlyTreeSelected(read, o) && w.propagates(o, n)
    ensures w.propagates(o, d) <==> forall a | Excludes(o, a) :: !Reach(w.links, d, a)
  {
    ReachSelf(w.links, d);
    ReachSelf(w.links, n);
    assert Labelled(s, n) && Labelled(s, d);
    var tree := SelectorOf(Annotation(o, TREE_SELECT));
    TreeDecides(read, kind, o, s[n].info.labels, s[d].info.labels);
    if tree.Requires? {
      NamesDecide(s, w, tree.all, n, d);
      forall r | r in tree.all && r.negated ensures Excludes(o, r.name) {
        assert r == Requirement(r.name, true);
      }
    }
  }

  lemma AsksOnlyExcludesNothing(o: Obj)
    requires AsksOnly(o)
    ensures forall a :: !Excludes(o, a)
  {
  }

  /** If users write tree selectors that only ask for a name, and no label selectors that tell namespaces
      apart, propagation is right whenever the queue is empty. */
  lemma AskingIsSafe(s: State, excluded: set<Name>, read: Reading, kind: Kind, unpropagated: set<string>)
    requires Ready(s) && forall o :: OnlyTreeSelected(read, o)
    ensures var w := WorldOf(s, excluded, read, kind, unpropagated, AsksOnly);
      P.ValidWorld(w) && P.Uniform(w) && L.AlwaysSettled(w)
  {
    var w := WorldOf(s, excluded, read, kind, unpropagated, AsksOnly);
    forall a, n, d, o, o' ensures !P.SkipsOver(w, a, n, d, o, o') {
      if Below(w.links, d, n) && P.Live(w, d) && w.propagates(o, n) {
        LiveAbove(w, d, n);
        AsksOnlyExcludesNothing(o);
        SkippedIffExcluded(s, w, read, kind, AsksOnly, o, n, d);
      }
    }
    L.SettledIffUniform(w);
  }

  /** A selector that excludes a name can leave a stale copy at or below it: a namespace between the source
      and the excluded one once had a source of its own, which was copied down. */
  lemma ExcludingGoesStale(s: State, w: P.World, read: Reading, kind: Kind, only: Obj -> bool,
      a: Name, n: Name, d: Name, o: Obj, o': Obj, x: Name)
    requires Ready(s) && w == WorldOf(s, w.excluded, read, kind, w.unpropagated, only)
    requires P.Live(w, d) && Below(w.links, d, n) && Below(w.links, n, a)
    requires P.IsSourceForm(w, o) && P.IsSourceForm(w, o') && OnlyTreeSelected(read, o)
    requires Excludes(o, x) && Reach(w.links, d, x) && w.propagates(o, n) && w.propagates(o', d)
    ensures !L.AlwaysSettled(w)
  {
    LiveAbove(w, d, n);
    SkippedIffExcluded(s, w, read, kind, only, o, n, d);
    assert P.SkipsOver(w, a, n, d, o, o');
    L.SettledIffUniform(w);
  }

  lemma LiveAbove(w: P.World, d: Name, n: Name)
    requires P.Live(w, d) && Below(w.links, d, n)
    ensures P.Live(w, n)
  {
    ReachCases(w.links, d, n);
    forall a | Reach(w.links, n, a) ensures a in w.present && a !in w.crit && a !in w.excluded {
      ReachTransitive(w.links, d, n, a);
    }
  }
}
