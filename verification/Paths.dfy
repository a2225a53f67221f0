/** Slash-separated paths. */
module Paths {
  import opened Options

  /** The elements of a slash-separated path; one empty element for "". */
  function Split(s: string): (parts: seq<string>)
    ensures parts != []
  {
    if s == "" then [""]
    else
      var parts := Split(s[1..]);
      if s[0] == '/' then [""] + parts else [[s[0]] + parts[0]] + parts[1..]
  }

  function Join(parts: seq<string>): string {
    if parts == [] then ""
    else if |parts| == 1 then parts[0]
    else parts[0] + "/" + Join(parts[1..])
  }

  function TrimTrailingSlash(p: string): string {
    if |p| > 1 && p[|p| - 1] == '/' then TrimTrailingSlash(p[..|p| - 1]) else p
  }

  predicate HasPathPrefix(p: string, prefix: string) {
    var p', prefix' := TrimTrailingSlash(p), TrimTrailingSlash(prefix);
    prefix' == "" || p' == prefix' || prefix' + "/" <= p'
  }

  function StripSlashes(p: string): string {
    if p != [] && p[|p| - 1] == '/' then StripSlashes(p[..|p| - 1]) else p
  }

  function AfterLastSlash(p: string): string {
    if p == [] then []
    else if p[|p| - 1] == '/' then []
    else AfterLastSlash(p[..|p| - 1]) + [p[|p| - 1]]
  }

  /** The last element of a slash-separated path; "." for the empty path. */
  function PathBase(p: string): string {
    if p == "" then "."
    else
      var t := StripSlashes(p);
      if t == "" then "/" else AfterLastSlash(t)
  }

  // -------------------------------------------------------------------- prefixes

  /** The first place from `k` on that is no slash. */
  function SkipSlashes(p: string, k: nat): (r: nat)
    requires k <= |p|
    ensures k <= r <= |p|
    decreases |p| - k
  {
    if k < |p| && p[k] == '/' then SkipSlashes(p, k + 1) else k
  }

  lemma {:induction false} IndexBound(s: string, c: char)
    ensures IndexOf(s, c) <= |s| && (IndexOf(s, c) < |s| ==> s[IndexOf(s, c)] == c)
  {
    if s != [] && s[0] != c {
      IndexBound(s[1..], c);
    }
  }

  /** The prefixes that end with an element, from a place where an element starts. */
  function ElementPrefixes(p: string, from: nat): seq<string>
    requires from <= |p|
    decreases |p| - from
  {
    IndexBound(p[from..], '/');
    var i := IndexOf(p[from..], '/');
    if from + i == |p| then (if p != "" && p[|p| - 1] != '/' then [p] else [])
    else [p[..from + i]] + ElementPrefixes(p, SkipSlashes(p, from + i + 1))
  }

  /** All prefixes of a path, beginning with the root's. */
  function PrefixesOf(p: string): seq<string> {
    var start := if "/" <= p then 1 else 0;
    [p[..start]] + ElementPrefixes(p, start)
  }

  method SkipFrom(p: string, k: nat) returns (r: nat)
    requires k <= |p|
    ensures r == SkipSlashes(p, k)
  {
    r := k;
    while r < |p| && p[r] == '/'
      invariant k <= r <= |p| && SkipSlashes(p, r) == SkipSlashes(p, k)
    {
      r := r + 1;
    }
  }

  /** The end of the element that starts at `from`, and where the next one starts. */
  method NextElement(p: string, from: nat) returns (end: nat, next: nat)
    requires from <= |p|
    ensures from <= end <= |p|
    ensures end == |p| ==> ElementPrefixes(p, from) == if p != "" && p[|p| - 1] != '/' then [p] else []
    ensures end < |p| ==> end < next <= |p| && ElementPrefixes(p, from) == [p[..end]] + ElementPrefixes(p, next)
  {
    hide IndexOf, SkipSlashes, ElementPrefixes;
    ElementStep(p, from);
    end := from + IndexOf(p[from..], '/');
    next := end;
    if end < |p| {
      next := SkipFrom(p, end + 1);
    }
  }

  /** The prefixes in the order they are yielded. */
  method Prefixes(p: string) returns (yielded: seq<string>)
    ensures yielded == PrefixesOf(p)
  {
    var from := if "/" <= p then 1 else 0;
    yielded := [p[..from]];
    ghost var all := PrefixesOf(p);
    hide IndexOf, SkipSlashes, PrefixesOf, ElementPrefixes;
    while true
      invariant from <= |p| && yielded + ElementPrefixes(p, from) == all
      decreases |p| - from
    {
      var end, next := NextElement(p, from);
      if end == |p| {
        break;
      }
      Regroup(yielded, p[..end], ElementPrefixes(p, next));
      yielded, from := yielded + [p[..end]], next;
    }
    if p != "" && p[|p| - 1] != '/' {
      yielded := yielded + [p];
    }
  }

  lemma Regroup(a: seq<string>, x: string, b: seq<string>)
    ensures a + ([x] + b) == (a + [x]) + b
  {
  }

  ghost predicate ValidElements(parts: seq<string>) {
    forall i | 0 <= i < |parts| :: parts[i] != "" && '/' !in parts[i]
  }

  lemma {:induction false} JoinConcat(a: seq<string>, b: seq<string>)
    requires a != [] && b != []
    ensures Join(a + b) == Join(a) + "/" + Join(b)
  {
    if |a| == 1 {
      assert (a + b)[1..] == b;
    } else {
      JoinConcat(a[1..], b);
      assert (a + b)[1..] == a[1..] + b;
      assert a[0] + "/" + (Join(a[1..]) + "/" + Join(b)) == a[0] + "/" + Join(a[1..]) + "/" + Join(b);
    }
  }

  lemma {:induction false} FirstElementEnds(a: string, rest: string)
    requires '/' !in a && (rest == "" || rest[0] == '/')
    ensures IndexOf(a + rest, '/') == |a|
  {
    if a == "" {
      assert a + rest == rest;
    } else {
      assert (a + rest)[1..] == a[1..] + rest && a[0] in a;
      FirstElementEnds(a[1..], rest);
    }
  }

  /** The paths of the first elements, from more than `k` of them on. */
  ghost function PathsFrom(parts: seq<string>, k: nat): seq<string>
    requires k <= |parts|
  {
    seq(|parts| - k, i requires 0 <= i < |parts| - k => Join(parts[..k + i + 1]))
  }

  /** Where the k-th element starts. */
  function StartOf(parts: seq<string>, k: nat): nat
    requires k <= |parts|
  {
    if k == 0 then 0 else |Join(parts[..k])| + 1
  }

  lemma JoinSplitAt(parts: seq<string>, k: nat)
    requires k < |parts|
    ensures StartOf(parts, k) <= |Join(parts)| && Join(parts)[StartOf(parts, k)..] == Join(parts[k..])
    ensures Join(parts[..k + 1]) == Join(parts)[..StartOf(parts, k)] + parts[k]
  {
    hide Join;
    JoinOne(parts[k]);
    assert parts[..k + 1] == parts[..k] + [parts[k]];
    if k == 0 {
      assert parts[k..] == parts && parts[..k + 1] == [parts[k]];
    } else {
      JoinHead(parts, k);
      JoinConcat(parts[..k], [parts[k]]);
    }
  }

  lemma JoinHead(parts: seq<string>, k: nat)
    requires 0 < k < |parts|
    ensures var head := Join(parts[..k]) + "/";
            |head| <= |Join(parts)| && Join(parts)[..|head|] == head && Join(parts)[|head|..] == Join(parts[k..])
  {
    hide Join;
    assert parts[..k] + parts[k..] == parts;
    JoinConcat(parts[..k], parts[k..]);
    Dropped(Join(parts[..k]) + "/", Join(parts[k..]));
  }

  lemma JoinOne(a: string)
    ensures Join([a]) == a
  {
  }

  lemma Dropped(pre: string, t: string)
    ensures (pre + t)[..|pre|] == pre && (pre + t)[|pre|..] == t
  {
  }

  lemma CutAt(p: string, from: nat, e: string, rest: string)
    requires from <= |p| && p[from..] == e + rest
    ensures from + |e| <= |p| && p[..from + |e|] == p[..from] + e
    ensures from + |e| == |p| <==> rest == ""
  {
    assert |p[from..]| == |e| + |rest|;
    assert p == p[..from] + p[from..];
  }

  /** What follows the k-th element. */
  ghost function RestAfter(parts: seq<string>, k: nat): string
    requires k < |parts|
  {
    if k + 1 < |parts| then "/" + Join(parts[k + 1..]) else ""
  }

  lemma JoinTail(parts: seq<string>, k: nat)
    requires k < |parts|
    ensures Join(parts[k..]) == parts[k] + RestAfter(parts, k)
  {
    var tail := parts[k..];
    assert tail[0] == parts[k] && tail[1..] == parts[k + 1..];
    if |tail| == 1 {
      assert parts[k] + "" == parts[k];
    } else {
      assert parts[k] + "/" + Join(tail[1..]) == parts[k] + ("/" + Join(tail[1..]));
    }
  }

  /** The k-th element of a path ends at the next slash, or at the end. */
  lemma ElementEnds(parts: seq<string>, k: nat)
    requires ValidElements(parts) && k < |parts| && StartOf(parts, k) <= |Join(parts)|
    ensures var p, from := Join(parts), StartOf(parts, k);
            && IndexOf(p[from..], '/') == |parts[k]|
            && from + |parts[k]| <= |p| && p[..from + |parts[k]|] == Join(parts[..k + 1])
            && (from + |parts[k]| == |p| <==> k + 1 == |parts|)
  {
    hide IndexOf, Join, StartOf;
    JoinSplitAt(parts, k);
    JoinTail(parts, k);
    CutAt(Join(parts), StartOf(parts, k), parts[k], RestAfter(parts, k));
    FirstElementEnds(parts[k], RestAfter(parts, k));
  }

  lemma LastIsNoSlash(parts: seq<string>)
    requires ValidElements(parts) && parts != []
    ensures Join(parts) != "" && Join(parts)[|Join(parts)| - 1] != '/'
  {
    var k := |parts| - 1;
    JoinSplitAt(parts, k);
    assert parts[..k + 1] == parts && parts[k][|parts[k]| - 1] in parts[k];
  }

  lemma ElementStep(p: string, from: nat)
    requires from <= |p|
    ensures var i := IndexOf(p[from..], '/');
            && from + i <= |p|
            && ElementPrefixes(p, from) ==
               if from + i == |p| then (if p != "" && p[|p| - 1] != '/' then [p] else [])
               else [p[..from + i]] + ElementPrefixes(p, SkipSlashes(p, from + i + 1))
  {
    IndexBound(p[from..], '/');
  }

  lemma PathsFromStep(parts: seq<string>, k: nat)
    requires k < |parts|
    ensures PathsFrom(parts, k) == [Join(parts[..k + 1])] + PathsFrom(parts, k + 1)
    ensures PathsFrom(parts, |parts|) == []
  {
    hide Join;
  }

  lemma {:induction false} ElementPrefixesOfPath(parts: seq<string>, k: nat)
    requires ValidElements(parts) && k < |parts|
    requires StartOf(parts, k) <= |Join(parts)|
    ensures ElementPrefixes(Join(parts), StartOf(parts, k)) == PathsFrom(parts, k)
    decreases |parts| - k
  {
    hide Join, IndexOf, StartOf, SkipSlashes, ElementPrefixes, PathsFrom, ValidElements;
    var p, from := Join(parts), StartOf(parts, k);
    ElementEnds(parts, k);
    ElementStep(p, from);
    LastIsNoSlash(parts);
    PathsFromStep(parts, k);
    if k + 1 < |parts| {
      NextStart(parts, k);
      NextElementStarts(parts, k + 1);
      ElementPrefixesOfPath(parts, k + 1);
    } else {
      assert parts[..k + 1] == parts;
    }
  }

  lemma NextStart(parts: seq<string>, k: nat)
    requires k + 1 < |parts|
    ensures StartOf(parts, k + 1) == StartOf(parts, k) + |parts[k]| + 1 <= |Join(parts)|
  {
    JoinSplitAt(parts, k);
    JoinSplitAt(parts, k + 1);
  }

  lemma NextElementStarts(parts: seq<string>, k: nat)
    requires ValidElements(parts) && k < |parts| && StartOf(parts, k) <= |Join(parts)|
    ensures SkipSlashes(Join(parts), StartOf(parts, k)) == StartOf(parts, k)
  {
    var p, from := Join(parts), StartOf(parts, k);
    JoinSplitAt(parts, k);
    assert p[from..][0] == parts[k][0] && parts[k][0] in parts[k];
  }

  lemma NothingJoined()
    ensures Join([]) == ""
  {
  }

  lemma FirstIsNoSlash(parts: seq<string>)
    requires ValidElements(parts) && parts != []
    ensures Join(parts) != "" && Join(parts)[0] != '/' && StartOf(parts, 0) == 0
  {
    assert parts[0][0] in parts[0];
  }

  /** The paths on the way, from the root on. */
  ghost function PathsOnTheWay(parts: seq<string>): seq<string> {
    [""] + PathsFrom(parts, 0)
  }

  /** For a relative, clean path: the root, and then the path after each element. */
  lemma PrefixesOfPath(parts: seq<string>)
    requires ValidElements(parts)
    ensures PrefixesOf(Join(parts)) == PathsOnTheWay(parts)
    ensures |PathsOnTheWay(parts)| == |parts| + 1
    ensures forall i | 0 <= i <= |parts| :: PathsOnTheWay(parts)[i] == Join(parts[..i])
  {
    hide ElementPrefixes;
    if parts == [] {
      EmptyPath();
    } else {
      FirstIsNoSlash(parts);
      ElementPrefixesOfPath(parts, 0);
    }
    hide Join;
    NothingJoined();
    assert parts[..0] == [];
  }

  /** For an absolute path they are those of the rest, each after the root's slash. */
  lemma PrefixesOfAbsolute(parts: seq<string>)
    requires ValidElements(parts)
    ensures PrefixesOf("/" + Join(parts)) == AfterSlashes(PathsOnTheWay(parts))
  {
    hide Join, ElementPrefixes;
    var p := Join(parts);
    assert ("/" + p)[..1] == "/" + "";
    if parts == [] {
      NothingJoined();
      ShiftedPrefixes("", 0);
      EmptyPath();
      NothingLeft();
    } else {
      FirstIsNoSlash(parts);
      ElementPrefixesOfPath(parts, 0);
      ShiftedPrefixes(p, 0);
    }
    assert AfterSlashes([""] + PathsFrom(parts, 0)) == ["/" + ""] + AfterSlashes(PathsFrom(parts, 0));
  }

  lemma NothingLeft()
    ensures ElementPrefixes("", 0) == []
    ensures PathsFrom([], 0) == []
  {
  }

  ghost function AfterSlashes(paths: seq<string>): seq<string> {
    seq(|paths|, i requires 0 <= i < |paths| => "/" + paths[i])
  }

  lemma {:induction false} ShiftedSkip(p: string, k: nat)
    requires k <= |p|
    ensures SkipSlashes("/" + p, k + 1) == SkipSlashes(p, k) + 1
    decreases |p| - k
  {
    assert k < |p| ==> ("/" + p)[k + 1] == p[k];
    if k < |p| && p[k] == '/' {
      ShiftedSkip(p, k + 1);
    }
  }

  lemma {:induction false} ShiftedPrefixes(p: string, from: nat)
    requires from <= |p|
    ensures ElementPrefixes("/" + p, from + 1) == AfterSlashes(ElementPrefixes(p, from))
    decreases |p| - from
  {
    hide SkipSlashes, IndexOf, ElementPrefixes;
    var q, i := "/" + p, IndexOf(p[from..], '/');
    assert q[from + 1..] == p[from..];
    ElementStep(p, from);
    ElementStep(q, from + 1);
    if from + i < |p| {
      ShiftedSkip(p, from + i + 1);
      var next := SkipSlashes(p, from + i + 1);
      ShiftedPrefixes(p, next);
      assert q[..from + 1 + i] == "/" + p[..from + i];
      assert AfterSlashes([p[..from + i]] + ElementPrefixes(p, next)) ==
             ["/" + p[..from + i]] + AfterSlashes(ElementPrefixes(p, next));
    } else {
      assert p != "" ==> q[|q| - 1] == p[|p| - 1];
    }
  }

  lemma EmptyPath()
    ensures PrefixesOf("") == [""]
  {
  }

  /** Different names on the way make different paths. */
  lemma {:induction false} SplitOfJoin(parts: seq<string>)
    requires ValidElements(parts) && parts != []
    ensures Split(Join(parts)) == parts
  {
    if |parts| == 1 {
      SplitElement(parts[0], "");
      assert parts[0] + "" == parts[0];
    } else {
      SplitElement(parts[0], "/" + Join(parts[1..]));
      assert parts[0] + ("/" + Join(parts[1..])) == Join(parts);
      SplitOfJoin(parts[1..]);
      assert ("/" + Join(parts[1..]))[1..] == Join(parts[1..]);
    }
  }

  lemma {:induction false} SplitElement(a: string, rest: string)
    requires '/' !in a && (rest == "" || rest[0] == '/')
    ensures Split(a + rest) == if rest == "" then [a] else [a] + Split(rest[1..])
  {
    if a == "" {
      assert a + rest == rest;
    } else {
      assert (a + rest)[1..] == a[1..] + rest && a[0] in a;
      SplitElement(a[1..], rest);
      assert [a[0]] + a[1..] == a;
    }
  }

  /** The base of a path is its last element. */
  lemma BaseIsLast(parts: seq<string>)
    requires ValidElements(parts) && parts != []
    ensures PathBase(Join(parts)) == parts[|parts| - 1]
  {
    hide Join, AfterLastSlash;
    var last, k := parts[|parts| - 1], |parts| - 1;
    LastIsNoSlash(parts);
    JoinSplitAt(parts, k);
    assert parts[..k + 1] == parts;
    var pre := Join(parts)[..StartOf(parts, k)];
    SlashBefore(parts, k);
    AfterSlash(pre, last);
  }

  lemma SlashBefore(parts: seq<string>, k: nat)
    requires k < |parts| && StartOf(parts, k) <= |Join(parts)|
    ensures var pre := Join(parts)[..StartOf(parts, k)]; pre == "" || pre[|pre| - 1] == '/'
  {
    hide Join;
    if k > 0 {
      assert parts[..k] + parts[k..] == parts;
      JoinConcat(parts[..k], parts[k..]);
      Dropped(Join(parts[..k]) + "/", Join(parts[k..]));
    }
  }

  lemma {:induction false} AfterSlash(pre: string, last: string)
    requires '/' !in last && (pre == "" || pre[|pre| - 1] == '/')
    ensures AfterLastSlash(pre + last) == last
  {
    if last == "" {
      assert pre + last == pre;
    } else {
      var init := last[..|last| - 1];
      assert (pre + last)[..|pre + last| - 1] == pre + init && last == init + [last[|last| - 1]];
      assert last[|last| - 1] in last;
      AfterSlash(pre, init);
    }
  }

  // -------------------------------------------------------- prefixes by elements

  lemma {:induction false} JoinOfSplit(s: string)
    ensures Join(Split(s)) == s
  {
    if s != "" {
      var parts := Split(s[1..]);
      JoinOfSplit(s[1..]);
      if s[0] == '/' {
        assert ([""] + parts)[1..] == parts;
      } else {
        var whole := [[s[0]] + parts[0]] + parts[1..];
        assert whole[1..] == parts[1..];
      }
      assert s == [s[0]] + s[1..];
    }
  }

  lemma {:induction false} SplitConcat(a: string, b: string)
    ensures Split(a + "/" + b) == Split(a) + Split(b)
  {
    if a == "" {
      assert (a + "/" + b)[1..] == b;
    } else {
      assert (a + "/" + b)[1..] == a[1..] + "/" + b;
      SplitConcat(a[1..], b);
    }
  }

  /** The elements of a path; none for the empty one. */
  function Elems(p: string): seq<string> {
    if p == "" then [] else Split(p)
  }

  /** A relative path without empty elements. */
  ghost predicate Clean(p: string) {
    ValidElements(Elems(p))
  }

  lemma JoinOfElems(p: string)
    ensures Join(Elems(p)) == p
  {
    JoinOfSplit(p);
  }

  lemma TrimClean(p: string)
    requires Clean(p)
    ensures TrimTrailingSlash(p) == p
  {
    JoinOfElems(p);
    if p != "" {
      LastIsNoSlash(Elems(p));
    }
  }

  /** A clean path begins with another and a slash, or is the other, exactly if the
      elements of the other are its first ones. */
  lemma BelowIff(p: string, prefix: string)
    requires Clean(p) && Clean(prefix) && prefix != ""
    ensures p == prefix || prefix + "/" <= p <==> Elems(prefix) <= Elems(p)
  {
    var a, b := Elems(prefix), Elems(p);
    JoinOfElems(p);
    JoinOfElems(prefix);
    if p != prefix {
      if prefix + "/" <= p {
        var rest := p[|prefix| + 1..];
        assert p == prefix + "/" + rest;
        SplitConcat(prefix, rest);
        assert b == a + Split(rest);
      }
      if a <= b && a != b {
        assert b == a + b[|a|..];
        JoinConcat(a, b[|a|..]);
      }
    }
  }

  /** One clean path is a prefix of another exactly if its elements are the first ones of
      the other. */
  lemma HasPathPrefixIff(p: string, prefix: string)
    requires Clean(p) && Clean(prefix)
    ensures HasPathPrefix(p, prefix) <==> Elems(prefix) <= Elems(p)
  {
    TrimClean(p);
    TrimClean(prefix);
    if prefix != "" { BelowIff(p, prefix); }
  }

  /** More elements of the same path make a longer path. */
  lemma {:induction false} LongerByElements(parts: seq<string>, i: nat, j: nat)
    requires ValidElements(parts) && i < j <= |parts|
    ensures |Join(parts[..i])| < |Join(parts[..j])|
  {
    var rest := parts[i..j];
    assert parts[..j] == parts[..i] + rest;
    assert rest[0] == parts[i];
    if i == 0 {
      assert parts[..i] == [] && parts[..j] == rest;
      assert |Join(rest)| >= |rest[0]|;
    } else {
      JoinConcat(parts[..i], rest);
    }
  }
}
