/** Strings split at a separator and joined again. */
module Text {
  predicate HasPrefix(s: string, p: string) {
    |p| <= |s| && s[..|p|] == p
  }

  predicate HasSuffix(s: string, p: string) {
    |p| <= |s| && s[|s| - |p|..] == p
  }

  /** `s` is something followed by `p`, and something that follows `p`. */
  ghost predicate EndsIn(s: string, p: string) {
    exists front :: s == front + p
  }

  ghost predicate StartsWith(s: string, p: string) {
    exists rest :: s == p + rest
  }

  lemma HasSuffixIff(s: string, p: string)
    ensures HasSuffix(s, p) <==> EndsIn(s, p)
  {
    if HasSuffix(s, p) { assert s == s[..|s| - |p|] + p; }
    forall front | s == front + p ensures HasSuffix(s, p) { assert s[|front|..] == p; }
  }

  lemma HasPrefixIff(s: string, p: string)
    ensures HasPrefix(s, p) <==> StartsWith(s, p)
  {
    if HasPrefix(s, p) { assert s == p + s[|p|..]; }
    forall rest | s == p + rest ensures HasPrefix(s, p) { assert s[..|p|] == p; }
  }

  /** `strings.Split` at every `sep`. */
  function Split(s: string, sep: char): (r: seq<string>)
    ensures r != []
  {
    if s == [] then [[]]
    else if s[0] == sep then [[]] + Split(s[1..], sep)
    else [[s[0]] + Split(s[1..], sep)[0]] + Split(s[1..], sep)[1..]
  }

  function Join(segs: seq<string>, sep: char): string
    requires segs != []
  {
    if |segs| == 1 then segs[0] else segs[0] + [sep] + Join(segs[1..], sep)
  }

  lemma JoinFront(x: string, segs: seq<string>, sep: char)
    requires segs != []
    ensures Join([x] + segs, sep) == x + [sep] + Join(segs, sep)
  {
    assert ([x] + segs)[1..] == segs;
  }

  predicate Plain(seg: string, sep: char) {
    sep !in seg
  }

  lemma {:induction false} SplitPlain(seg: string, sep: char)
    requires Plain(seg, sep)
    ensures Split(seg, sep) == [seg]
  {
    if seg != [] {
      SplitPlain(seg[1..], sep);
      assert seg == [seg[0]] + seg[1..];
    }
  }

  lemma {:induction false} SplitFirst(seg: string, rest: string, sep: char)
    requires Plain(seg, sep)
    ensures Split(seg + [sep] + rest, sep) == [seg] + Split(rest, sep)
  {
    if seg == [] {
      assert ([sep] + rest)[1..] == rest;
      assert seg + [sep] + rest == [sep] + rest;
    } else {
      SplitFirst(seg[1..], rest, sep);
      var s := seg + [sep] + rest;
      assert s[0] == seg[0] && s[1..] == seg[1..] + [sep] + rest;
      assert [seg[0]] + seg[1..] == seg;
    }
  }

  /** Splitting undoes joining if no segment holds the separator. */
  lemma {:induction false} SplitJoin(segs: seq<string>, sep: char)
    requires segs != [] && forall i | 0 <= i < |segs| :: Plain(segs[i], sep)
    ensures Split(Join(segs, sep), sep) == segs
  {
    if |segs| == 1 {
      SplitPlain(segs[0], sep);
    } else {
      SplitFirst(segs[0], Join(segs[1..], sep), sep);
      SplitJoin(segs[1..], sep);
    }
  }

  lemma {:induction false} SplitIsPlain(s: string, sep: char)
    ensures forall i | 0 <= i < |Split(s, sep)| :: Plain(Split(s, sep)[i], sep)
  {
    if s != [] { SplitIsPlain(s[1..], sep); }
  }

  /** `p` is the part of `k` before its first slash, or all of it. */
  ghost predicate IsFirstPart(k: string, p: string) {
    '/' !in p && (k == p || StartsWith(k, p + "/"))
  }

  lemma {:induction false} SplitAtSlash(k: string)
    ensures IsFirstPart(k, Split(k, '/')[0])
  {
    if k == [] || k[0] == '/' {
      assert k != [] ==> k == [] + "/" + k[1..];
    } else {
      SplitAtSlash(k[1..]);
      var p := Split(k[1..], '/')[0];
      assert k == [k[0]] + k[1..];
      if rest :| k[1..] == p + "/" + rest { assert k == ([k[0]] + p) + "/" + rest; }
    }
  }

  lemma FirstPartIs(k: string, p: string)
    ensures IsFirstPart(k, p) <==> p == Split(k, '/')[0]
  {
    SplitAtSlash(k);
    if IsFirstPart(k, p) {
      if k == p {
        SplitPlain(p, '/');
      } else {
        var rest :| k == p + "/" + rest;
        SplitFirst(p, rest, '/');
      }
    }
  }
}
