/**
 * The lexical part of Go's `path/filepath` on a Unix system: `IsAbs`, `Clean`,
 * `Join` and `Abs` (the working directory being a parameter).  Paths are
 * byte strings separated by '/'.
 */
module Paths {
  import opened Text

  /** `filepath.IsAbs` on Unix: the path starts at the root. */
  predicate IsAbs(p: string) {
    |p| > 0 && p[0] == '/'
  }

  /** A path element that cleaning leaves as it is. */
  predicate Normal(seg: string) {
    seg != "" && seg != "." && seg != ".." && '/' !in seg
  }

  predicate AllNormal(segs: seq<string>) {
    forall k :: 0 <= k < |segs| ==> Normal(segs[k])
  }

  /** The shape of a cleaned relative path: leading ".." elements, then normal ones. */
  predicate DotsThenNormal(segs: seq<string>) {
    (forall k :: 0 <= k < |segs| ==> segs[k] == ".." || Normal(segs[k])) &&
    (forall k, l :: 0 <= k < l < |segs| && segs[l] == ".." ==> segs[k] == "..")
  }

  /** Drop the empty and "." elements (repeated separators and current-directory steps). */
  function Kept(segs: seq<string>): (r: seq<string>)
    ensures forall k :: 0 <= k < |r| ==> r[k] != "" && r[k] != "."
    ensures forall k :: 0 <= k < |r| ==> r[k] in segs
    decreases |segs|
  {
    if segs == [] then []
    else (if segs[0] == "" || segs[0] == "." then [] else [segs[0]]) + Kept(segs[1..])
  }

  /** One element of the lexical walk: ".." removes the previous element when there is
      one to remove, is dropped at the root, and is kept at the front of a relative path. */
  function Step(stack: seq<string>, seg: string, rooted: bool): seq<string> {
    if seg == ".." then
      if |stack| > 0 && stack[|stack| - 1] != ".." then stack[..|stack| - 1]
      else if rooted then stack
      else stack + [".."]
    else stack + [seg]
  }

  function Walk(stack: seq<string>, segs: seq<string>, rooted: bool): seq<string>
    decreases |segs|
  {
    if segs == [] then stack else Walk(Step(stack, segs[0], rooted), segs[1..], rooted)
  }

  /** The elements of the cleaned path. */
  function CleanSegments(p: string): seq<string> {
    Walk([], Kept(Split(p, '/')), IsAbs(p))
  }

  /** Writing elements back as a path: "/" in front of a rooted one, "." for an empty relative one. */
  function Render(rooted: bool, segs: seq<string>): string {
    var body := Join(segs, "/");
    if rooted then "/" + body else if body == "" then "." else body
  }

  /** `filepath.Clean`, lexically. */
  function Clean(p: string): string {
    if p == "" then "." else Render(IsAbs(p), CleanSegments(p))
  }

  /** `filepath.Join` of two elements: the non-empty elements from the first
      non-empty one on, joined by '/' and cleaned. */
  function JoinPath(a: string, b: string): string {
    if a == "" then (if b == "" then "" else Clean(b)) else Clean(a + "/" + b)
  }

  /** `filepath.Abs`, with the working directory passed in. */
  function Abs(p: string, cwd: string): string {
    if IsAbs(p) then Clean(p) else JoinPath(cwd, p)
  }

  /** The path without its trailing separators. */
  function TrimTrailingSlashes(p: string): (r: string)
    ensures |r| <= |p| && r == p[..|r|]
    ensures r == [] || r[|r| - 1] != '/'
    ensures forall k :: |r| <= k < |p| ==> p[k] == '/'
    decreases |p|
  {
    if p != [] && p[|p| - 1] == '/' then TrimTrailingSlashes(p[..|p| - 1]) else p
  }

  /** What follows the last separator: all of `p` when it has none. */
  function LastElement(p: string): (r: string)
    ensures |r| <= |p| && r == p[|p| - |r|..]
    ensures '/' !in r
    ensures |r| < |p| ==> p[|p| - |r| - 1] == '/'
    decreases |p|
  {
    if p == [] || p[|p| - 1] == '/' then [] else LastElement(p[..|p| - 1]) + [p[|p| - 1]]
  }

  /** `filepath.Base`: "." for the empty path, "/" for one made of separators
      only, otherwise the last element once trailing separators are dropped. */
  function Base(p: string): (r: string)
    ensures r != []
    ensures '/' in r ==> r == "/"
  {
    if p == [] then "."
    else
      var t := TrimTrailingSlashes(p);
      if t == [] then "/" else LastElement(t)
  }

  /** A name without separators is its own base. */
  lemma BaseOfName(name: string)
    requires name != [] && '/' !in name
    ensures Base(name) == name
  {
    assert forall k :: 0 <= k < |name| ==> name[k] in name;
    assert TrimTrailingSlashes(name) == name;
    var r := LastElement(name);
    assert |r| == |name|;
  }

  /** Only the last element of a path survives `Base`. */
  lemma BaseDropsDirectory(dir: string, name: string)
    requires name != [] && '/' !in name
    ensures Base(dir + "/" + name) == name
  {
    var p := dir + "/" + name;
    assert p[|p| - 1] == name[|name| - 1] && name[|name| - 1] in name;
    assert TrimTrailingSlashes(p) == p;
    LastElementAfterSlash(dir + "/", name);
  }

  /** The last element of a path ending in `/` followed by a plain name is that name. */
  lemma {:induction false} LastElementAfterSlash(head: string, name: string)
    requires head != [] && head[|head| - 1] == '/' && '/' !in name
    ensures LastElement(head + name) == name
    decreases |name|
  {
    var p := head + name;
    if name == [] {
      assert p == head;
    } else {
      var init, last := name[..|name| - 1], name[|name| - 1];
      assert last in name;
      assert p[..|p| - 1] == head + init && p[|p| - 1] == last;
      assert LastElement(p) == LastElement(head + init) + [last];
      LastElementAfterSlash(head, init);
      assert init + [last] == name;
    }
  }

  lemma {:induction false} KeptAppend(a: seq<string>, b: seq<string>)
    ensures Kept(a + b) == Kept(a) + Kept(b)
    decreases |a|
  {
    if a == [] {
      assert a + b == b;
    } else {
      assert (a + b)[1..] == a[1..] + b;
      KeptAppend(a[1..], b);
    }
  }

  lemma {:induction false} KeptNormal(segs: seq<string>)
    requires AllNormal(segs)
    ensures Kept(segs) == segs
    decreases |segs|
  {
    if segs != [] {
      KeptNormal(segs[1..]);
      assert [segs[0]] + segs[1..] == segs;
    }
  }

  /** Walking over normal elements only pushes them. */
  lemma {:induction false} WalkNormal(stack: seq<string>, segs: seq<string>, rooted: bool)
    requires AllNormal(segs)
    ensures Walk(stack, segs, rooted) == stack + segs
    decreases |segs|
  {
    if segs != [] {
      WalkNormal(stack + [segs[0]], segs[1..], rooted);
      assert stack + [segs[0]] + segs[1..] == stack + segs;
    }
  }

  /** A rooted walk never keeps "..": its result is all normal elements. */
  lemma {:induction false} WalkRootedNormal(stack: seq<string>, segs: seq<string>)
    requires AllNormal(stack)
    requires forall k :: 0 <= k < |segs| ==> segs[k] == ".." || Normal(segs[k])
    ensures AllNormal(Walk(stack, segs, true))
    decreases |segs|
  {
    if segs != [] {
      WalkRootedNormal(Step(stack, segs[0], true), segs[1..]);
    }
  }

  /** A relative walk keeps its "..": they can only pile up at the front. */
  lemma {:induction false} WalkRelativeShape(stack: seq<string>, segs: seq<string>)
    requires DotsThenNormal(stack)
    requires forall k :: 0 <= k < |segs| ==> segs[k] == ".." || Normal(segs[k])
    ensures DotsThenNormal(Walk(stack, segs, false))
    decreases |segs|
  {
    if segs != [] {
      var next := Step(stack, segs[0], false);
      if segs[0] == ".." && !(|stack| > 0 && stack[|stack| - 1] != "..") {
        assert next == stack + [".."];
        assert forall k :: 0 <= k < |stack| ==> stack[k] == "..";
      }
      assert DotsThenNormal(next);
      WalkRelativeShape(next, segs[1..]);
    }
  }

  lemma SplitElementsWalkable(p: string)
    ensures forall k :: 0 <= k < |Kept(Split(p, '/'))| ==>
      Kept(Split(p, '/'))[k] == ".." || Normal(Kept(Split(p, '/'))[k])
  {
    var segs := Split(p, '/');
    var kept := Kept(segs);
    forall k | 0 <= k < |kept|
      ensures kept[k] == ".." || Normal(kept[k])
    {
      assert kept[k] in segs;
    }
  }

  /** The elements of a cleaned path: normal ones under the root, or leading ".."
      elements followed by normal ones for a relative path. */
  lemma CleanSegmentsShape(p: string)
    ensures IsAbs(p) ==> AllNormal(CleanSegments(p))
    ensures !IsAbs(p) ==> DotsThenNormal(CleanSegments(p))
  {
    SplitElementsWalkable(p);
    if IsAbs(p) {
      WalkRootedNormal([], Kept(Split(p, '/')));
    } else {
      WalkRelativeShape([], Kept(Split(p, '/')));
    }
  }

  lemma {:induction false} JoinStartsWithFirst(segs: seq<string>, sep: string)
    requires |segs| >= 1
    ensures HasPrefix(Join(segs, sep), segs[0])
  {
    if |segs| > 1 {
      assert Join(segs, sep) == segs[0] + (sep + Join(segs[1..], sep));
    }
  }

  /** The elements of a rendered rooted path are read back by splitting it. */
  lemma RenderRootedSegments(ns: seq<string>)
    requires AllNormal(ns)
    ensures Kept(Split(Render(true, ns), '/')) == ns
  {
    var body := Join(ns, "/");
    assert Render(true, ns) == [] + ['/'] + body;
    SplitAround([], '/', body);
    KeptAppend(Split([], '/'), Split(body, '/'));
    if ns == [] {
      assert Split(body, '/') == [""];
    } else {
      SplitJoin(ns, '/');
      KeptNormal(ns);
    }
  }

  /** A rooted path written from normal elements is already clean. */
  lemma CleanRenderedRooted(ns: seq<string>)
    requires AllNormal(ns)
    ensures Clean(Render(true, ns)) == Render(true, ns)
    ensures CleanSegments(Render(true, ns)) == ns
  {
    RenderRootedSegments(ns);
    WalkNormal([], ns, true);
    assert [] + ns == ns;
  }

  /** A relative cleaned path contains ".." unless all its elements are normal. */
  lemma NoDotDotMeansNormal(p: string)
    requires p != "" && !IsAbs(p)
    requires !Contains(Clean(p), "..")
    ensures AllNormal(CleanSegments(p))
  {
    var segs := CleanSegments(p);
    CleanSegmentsShape(p);
    if |segs| > 0 {
      JoinStartsWithFirst(segs, "/");
      assert segs[0] == ".." ==> OccursAt(Clean(p), "..", 0);
      assert segs[0] != "..";
    }
  }

  /** A cleaned relative path with only normal elements splits back into them. */
  lemma CleanRelativeElements(p: string)
    requires p != "" && !IsAbs(p)
    requires AllNormal(CleanSegments(p))
    ensures Kept(Split(Clean(p), '/')) == CleanSegments(p)
  {
    var segs, c := CleanSegments(p), Clean(p);
    assert c == Render(false, segs);
    if segs == [] {
      assert c == ".";
      SplitNoSep(c, '/');
      assert Kept(["."]) == [];
    } else {
      JoinStartsWithFirst(segs, "/");
      assert c == Join(segs, "/");
      SplitJoin(segs, '/');
      KeptNormal(segs);
    }
  }

  /** The elements of root + "/" + c: those of the rooted path, then those of c. */
  lemma RootedJoinElements(rs: seq<string>, c: string)
    requires AllNormal(rs)
    ensures Kept(Split(Render(true, rs) + "/" + c, '/')) == rs + Kept(Split(c, '/'))
  {
    var root := Render(true, rs);
    SplitAround(root, '/', c);
    assert root + "/" + c == root + ['/'] + c;
    RenderRootedSegments(rs);
    KeptAppend(Split(root, '/'), Split(c, '/'));
  }

  /** Joining a clean relative path without ".." elements under a clean rooted
      path appends its elements. */
  lemma JoinUnderRoot(rs: seq<string>, p: string)
    requires AllNormal(rs)
    requires p != "" && !IsAbs(p)
    requires AllNormal(CleanSegments(p))
    ensures JoinPath(Render(true, rs), Clean(p)) == Render(true, rs + CleanSegments(p))
    ensures AllNormal(rs + CleanSegments(p))
  {
    var segs, root, c := CleanSegments(p), Render(true, rs), Clean(p);
    CleanRelativeElements(p);
    RootedJoinElements(rs, c);
    var q := root + "/" + c;
    assert IsAbs(q);
    assert CleanSegments(q) == Walk([], rs + segs, true);
    WalkNormal([], rs + segs, true);
    assert [] + (rs + segs) == rs + segs;
  }

  /** `filepath.Abs` with an absolute working directory gives a rooted path
      written from normal elements, hence a clean one. */
  lemma AbsIsCleanRooted(p: string, cwd: string)
    requires IsAbs(cwd)
    ensures AllNormal(CleanSegments(if IsAbs(p) then p else cwd + "/" + p))
    ensures Abs(p, cwd) == Render(true, CleanSegments(if IsAbs(p) then p else cwd + "/" + p))
  {
    var q := if IsAbs(p) then p else cwd + "/" + p;
    assert IsAbs(q);
    CleanSegmentsShape(q);
  }

  /** A relative path written from normal elements is already clean. */
  lemma CleanJoinedNormal(segs: seq<string>)
    requires |segs| >= 1 && AllNormal(segs)
    ensures !IsAbs(Join(segs, "/")) && Join(segs, "/") != ""
    ensures CleanSegments(Join(segs, "/")) == segs
    ensures Clean(Join(segs, "/")) == Join(segs, "/")
  {
    var p := Join(segs, "/");
    JoinStartsWithFirst(segs, "/");
    assert p[0] == segs[0][0];
    SplitJoin(segs, '/');
    KeptNormal(segs);
    WalkNormal([], segs, false);
    assert [] + segs == segs;
  }

  /** Once a relative walk holds a leading "..", nothing removes it. */
  lemma {:induction false} WalkKeepsLeadingDotDot(stack: seq<string>, segs: seq<string>)
    requires |stack| > 0 && stack[0] == ".."
    ensures |Walk(stack, segs, false)| > 0 && Walk(stack, segs, false)[0] == ".."
    decreases |segs|
  {
    if segs != [] {
      WalkKeepsLeadingDotDot(Step(stack, segs[0], false), segs[1..]);
    }
  }

  /** A relative cleaned path whose first element is ".." starts with "..". */
  lemma LeadingDotDotContained(p: string)
    requires p != "" && !IsAbs(p)
    requires |CleanSegments(p)| > 0 && CleanSegments(p)[0] == ".."
    ensures Contains(Clean(p), "..")
  {
    var segs := CleanSegments(p);
    var body := Join(segs, "/");
    JoinStartsWithFirst(segs, "/");
    assert body[..2] == "..";
    assert Clean(p) == body;
    assert OccursAt(body, "..", 0);
  }

  /** Splitting off a leading element that cleaning keeps. */
  lemma KeptSplitFront(a: string, b: string)
    requires '/' !in a && a != "" && a != "."
    ensures Kept(Split(a + "/" + b, '/')) == [a] + Kept(Split(b, '/'))
  {
    assert a + "/" + b == a + ['/'] + b;
    SplitAround(a, '/', b);
    SplitNoSep(a, '/');
    assert ([a] + Split(b, '/'))[1..] == Split(b, '/');
  }

  /** A relative path whose first kept element is ".." cleans to a path containing "..". */
  lemma LeadingParentContained(p: string)
    requires p != "" && !IsAbs(p)
    requires |Kept(Split(p, '/'))| > 0 && Kept(Split(p, '/'))[0] == ".."
    ensures Contains(Clean(p), "..")
  {
    var kept := Kept(Split(p, '/'));
    assert Step([], kept[0], false) == [".."];
    assert Walk([], kept, false) == Walk(Step([], kept[0], false), kept[1..], false);
    WalkKeepsLeadingDotDot([".."], kept[1..]);
    assert CleanSegments(p) == Walk([], kept, false);
    LeadingDotDotContained(p);
  }
}
