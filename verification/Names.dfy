/** Namespace names and their order: byte-wise lexicographic comparison, and the sorted,
    repeat-free listing of a set of names that `sort.Strings` yields on the keys of a map. */
module Names {

  datatype Option<+T> = None | Some(value: T)

  /** The name of a namespace. */
  datatype Name = Name(text: string)

  /** The empty name, which stands for "no namespace" in configurations. */
  const NO_NAME: Name := Name("")

  /** Lexicographic order on names (the `<` of Go strings). */
  predicate Less(a: Name, b: Name) {
    TextLess(a.text, b.text)
  }

  predicate TextLess(a: string, b: string)
    decreases |a|
  {
    if a == [] then b != []
    else if b == [] then false
    else a[0] < b[0] || (a[0] == b[0] && TextLess(a[1..], b[1..]))
  }

  /** `a` and `b` start alike, and then `a` ends or goes on with the smaller character. */
  ghost predicate ComesBefore(a: string, b: string) {
    exists i :: PartAt(a, b, i)
  }

  ghost predicate PartAt(a: string, b: string, i: int) {
    0 <= i <= |a| && i < |b| && a[..i] == b[..i] && (i < |a| ==> a[i] < b[i])
  }

  lemma {:induction false} TextLessIff(a: string, b: string)
    ensures TextLess(a, b) <==> ComesBefore(a, b)
    decreases |a|
  {
    if TextLess(a, b) {
      if a == [] || a[0] < b[0] {
        assert PartAt(a, b, 0);
      } else {
        TextLessIff(a[1..], b[1..]);
        var i :| PartAt(a[1..], b[1..], i);
        assert a[..i + 1] == [a[0]] + a[1..][..i] && b[..i + 1] == [b[0]] + b[1..][..i];
        assert PartAt(a, b, i + 1);
      }
    }
    if i :| PartAt(a, b, i) {
      if i > 0 {
        assert a[0] == a[..i][0] && b[0] == b[..i][0];
        assert a[1..][..i - 1] == a[..i][1..] && b[1..][..i - 1] == b[..i][1..];
        assert PartAt(a[1..], b[1..], i - 1);
        TextLessIff(a[1..], b[1..]);
      }
    }
  }

  lemma {:induction false} TextLessIrreflexive(a: string)
    ensures !TextLess(a, a)
    decreases |a|
  {
    if a != [] { TextLessIrreflexive(a[1..]); }
  }

  lemma {:induction false} TextLessTransitive(a: string, b: string, c: string)
    requires TextLess(a, b) && TextLess(b, c)
    ensures TextLess(a, c)
    decreases |a|
  {
    if a != [] && a[0] == b[0] && b[0] == c[0] { TextLessTransitive(a[1..], b[1..], c[1..]); }
  }

  lemma {:induction false} TextLessTotal(a: string, b: string)
    requires a != b
    ensures TextLess(a, b) || TextLess(b, a)
    decreases |a|
  {
    if a != [] && b != [] && a[0] == b[0] {
      assert a == [a[0]] + a[1..] && b == [b[0]] + b[1..];
      TextLessTotal(a[1..], b[1..]);
    }
  }

  lemma LessIrreflexive(a: Name)
    ensures !Less(a, a)
  {
    TextLessIrreflexive(a.text);
  }

  lemma LessTransitive(a: Name, b: Name, c: Name)
    requires Less(a, b) && Less(b, c)
    ensures Less(a, c)
  {
    TextLessTransitive(a.text, b.text, c.text);
  }

  lemma LessTotal(a: Name, b: Name)
    requires a != b
    ensures Less(a, b) || Less(b, a)
  {
    TextLessTotal(a.text, b.text);
  }

  ghost predicate IsLeast(m: Name, s: set<Name>) {
    m in s && forall x | x in s && x != m :: Less(m, x)
  }

  lemma LeastUnique(a: Name, b: Name, s: set<Name>)
    requires IsLeast(a, s) && IsLeast(b, s)
    ensures a == b
  {
    if a != b {
      LessTransitive(a, b, a);
      LessIrreflexive(a);
    }
  }

  lemma {:induction false} LeastExists(s: set<Name>) returns (m: Name)
    requires s != {}
    ensures IsLeast(m, s)
    decreases |s|
  {
    var x :| x in s;
    var rest := s - {x};
    if rest == {} {
      assert s == {x};
      m := x;
    } else {
      var r := LeastExists(rest);
      m := r;
      LessTotal(x, r);
      if Less(x, r) {
        m := x;
        forall y | y in s && y != x ensures Less(x, y) {
          if y != r { LessTransitive(x, r, y); }
        }
      }
    }
  }

  function Elems(s: seq<Name>): set<Name> { set x | x in s }

  ghost predicate StrictlySorted(s: seq<Name>) {
    forall i, j | 0 <= i < j < |s| :: Less(s[i], s[j])
  }

  /** The names of `s` in increasing order, each once. */
  method SortedNames(s: set<Name>) returns (r: seq<Name>)
    ensures StrictlySorted(r)
    ensures Elems(r) == s
    ensures |r| == |s|
  {
    r := [];
    var todo := s;
    while todo != {}
      invariant todo <= s
      invariant StrictlySorted(r)
      invariant Elems(r) == s - todo
      invariant |r| + |todo| == |s|
      invariant forall x, y | x in r && y in todo :: Less(x, y)
      decreases |todo|
    {
      var m := Least(todo);
      assert Elems(r + [m]) == Elems(r) + {m};
      r, todo := r + [m], todo - {m};
    }
  }

  method Least(s: set<Name>) returns (m: Name)
    requires s != {}
    ensures IsLeast(m, s)
  {
    m :| m in s;
    var todo := s - {m};
    while todo != {}
      invariant m in s && m !in todo && todo <= s
      invariant forall x | x in s - todo && x != m :: Less(m, x)
      decreases |todo|
    {
      var x :| x in todo;
      todo := todo - {x};
      LessTotal(m, x);
      if Less(x, m) {
        forall y | y in s - todo && y != x ensures Less(x, y) {
          if y != m { LessTransitive(x, m, y); }
        }
        m := x;
      }
    }
  }

  lemma ElemsEmpty(s: seq<Name>)
    ensures Elems(s) == {} <==> s == []
  {
    if s != [] { assert s[0] in Elems(s); }
  }

  /** A strictly sorted list is determined by its elements. */
  lemma {:induction false} SortedUnique(a: seq<Name>, b: seq<Name>)
    requires StrictlySorted(a) && StrictlySorted(b)
    requires Elems(a) == Elems(b)
    ensures a == b
    decreases |a|
  {
    ElemsEmpty(a);
    ElemsEmpty(b);
    if a != [] {
      var s := Elems(a);
      assert a[0] in s;
      assert IsLeast(a[0], s);
      assert IsLeast(b[0], s);
      LeastUnique(a[0], b[0], s);
      forall x ensures x in a[1..] <==> x in s && x != a[0] {
        LessIrreflexive(a[0]);
      }
      forall x ensures x in b[1..] <==> x in s && x != a[0] {
        LessIrreflexive(b[0]);
        assert x in b <==> x in s;
      }
      SortedUnique(a[1..], b[1..]);
    }
  }

  /** A proper subset has fewer elements. */
  lemma {:induction false} SubsetSmaller<T>(a: set<T>, b: set<T>)
    requires a < b
    ensures |a| < |b|
    decreases |a|
  {
    if a != {} {
      var x :| x in a;
      assert !(b <= a);
      var y :| y in b && y !in a;
      assert y in b - {x};
      SubsetSmaller(a - {x}, b - {x});
    }
  }
}
