/**
 * `DB.ResolveEmailPath` (internal/db/db.go): turning a stored relative .eml
 * path into an absolute path under the configured emails root, or rejecting it
 * with the path-traversal sentinel.
 */
module Resolve {
  import opened Wrappers
  import opened Text
  import opened Paths
  import opened Records

  /** The resolution, with the process working directory `cwd` as a parameter
      (it is what `filepath.Abs` consults for a relative root). */
  function ResolveEmailPath(emailsPath: string, cwd: string, relativePath: string): (r: Result<string, DbError>)
    ensures r.Err? ==> r == Err(PathTraversal)
    ensures IsAbs(relativePath) ==> r.Err?
    ensures Contains(Clean(relativePath), "..") ==> r.Err?
    ensures r.Ok? ==> r.value == Abs(emailsPath, cwd) || HasPrefix(r.value, Abs(emailsPath, cwd) + "/")
  {
    if IsAbs(relativePath) then Err(PathTraversal)
    else
      var cleaned := Clean(relativePath);
      if Contains(cleaned, "..") then Err(PathTraversal)
      else
        var absRoot := Abs(emailsPath, cwd);
        var absResolved := Abs(JoinPath(absRoot, cleaned), cwd);
        if !HasPrefix(absResolved, absRoot + "/") && absResolved != absRoot then Err(PathTraversal)
        else Ok(absResolved)
  }

  /** The elements of the root and of the cleaned input, for an accepted-looking input. */
  lemma ResolvedElements(emailsPath: string, cwd: string, rel: string) returns (rs: seq<string>, segs: seq<string>)
    requires IsAbs(cwd)
    requires !IsAbs(rel) && !Contains(Clean(rel), "..")
    ensures AllNormal(rs) && AllNormal(segs)
    ensures Abs(emailsPath, cwd) == Render(true, rs)
    ensures Clean(rel) == Render(false, segs)
    ensures Abs(JoinPath(Abs(emailsPath, cwd), Clean(rel)), cwd) == Render(true, rs + segs)
  {
    var q := if IsAbs(emailsPath) then emailsPath else cwd + "/" + emailsPath;
    AbsIsCleanRooted(emailsPath, cwd);
    rs := CleanSegments(q);
    var p := if rel == "" then "." else rel;
    assert Clean(p) == Clean(rel) by {
      if rel == "" {
        SplitNoSep(".", '/');
        assert Split(".", '/') == ["."];
      }
    }
    NoDotDotMeansNormal(p);
    segs := CleanSegments(p);
    JoinUnderRoot(rs, p);
    CleanRenderedRooted(rs + segs);
  }

  /** A non-empty list of normal elements does not render as ".". */
  lemma RenderNotDot(segs: seq<string>)
    requires |segs| >= 1 && AllNormal(segs)
    ensures Render(false, segs) == Join(segs, "/")
    ensures Join(segs, "/") != "." && Join(segs, "/") != ""
    ensures Join(segs, "/")[0] != '/'
  {
    var c := Join(segs, "/");
    JoinStartsWithFirst(segs, "/");
    assert c[..|segs[0]|] == segs[0];
    assert c[0] == segs[0][0];
    if |segs| > 1 {
      assert |c| > |segs[0]|;
    }
  }

  /** The final prefix test of the resolution, on the two absolute paths. */
  function Verdict(root: string, resolved: string): Result<string, DbError> {
    if !HasPrefix(resolved, root + "/") && resolved != root then Err(PathTraversal) else Ok(resolved)
  }

  /** An input that passes the first two guards is judged by the prefix test alone. */
  lemma ResolveReachesVerdict(emailsPath: string, cwd: string, rel: string)
    requires !IsAbs(rel) && !Contains(Clean(rel), "..")
    ensures ResolveEmailPath(emailsPath, cwd, rel) ==
      Verdict(Abs(emailsPath, cwd), Abs(JoinPath(Abs(emailsPath, cwd), Clean(rel)), cwd))
  {
  }

  /** Nothing after a root of one or more elements: the root itself. */
  lemma VerdictAtRoot(rs: seq<string>)
    ensures Verdict(Render(true, rs), Render(true, rs + [])) == Ok(Render(true, rs))
  {
    assert rs + [] == rs;
  }

  /** Elements under the root "/": "//" is never a prefix, so the input is rejected. */
  lemma VerdictUnderSlash(segs: seq<string>)
    requires |segs| >= 1 && AllNormal(segs)
    ensures Verdict(Render(true, []), Render(true, [] + segs)) == Err(PathTraversal)
  {
    RenderNotDot(segs);
    var c := Join(segs, "/");
    var resolved := Render(true, [] + segs);
    assert [] + segs == segs;
    assert resolved == "/" + c;
    assert Render(true, []) + "/" == "//";
    assert resolved[1] == c[0];
    assert !HasPrefix(resolved, "//");
  }

  lemma SlashAssoc(a: string, c: string)
    ensures "/" + (a + "/" + c) == ("/" + a) + "/" + c
  {
  }

  /** A path strictly below the root passes the prefix test. */
  lemma VerdictBelow(root: string, c: string)
    ensures Verdict(root, root + "/" + c) == Ok(root + "/" + c)
  {
    PrefixOfAppend(root + "/", c);
  }

  /** Elements under a root of one or more elements: root + "/" + the elements. */
  lemma VerdictUnderRoot(rs: seq<string>, segs: seq<string>)
    requires |rs| >= 1 && AllNormal(rs)
    requires |segs| >= 1 && AllNormal(segs)
    ensures Render(true, rs) != "/"
    ensures Verdict(Render(true, rs), Render(true, rs + segs)) ==
      Ok(Render(true, rs) + "/" + Join(segs, "/"))
  {
    var body, c := Join(rs, "/"), Join(segs, "/");
    JoinAppend(rs, segs, "/");
    assert Render(true, rs + segs) == "/" + Join(rs + segs, "/");
    SlashAssoc(body, c);
    VerdictBelow("/" + body, c);
    JoinStartsWithFirst(rs, "/");
    assert |body| >= 1;
  }

  /** What the resolution computes, in closed form, for an absolute working
      directory: rejection exactly for absolute inputs and inputs whose cleaned
      form contains ".."; the root itself for inputs that clean to "."; otherwise
      root + "/" + the cleaned input, except under the root "/", where the
      required prefix "//" is never met. */
  lemma ResolveClosedForm(emailsPath: string, cwd: string, rel: string)
    requires IsAbs(cwd)
    ensures var root := Abs(emailsPath, cwd);
      ResolveEmailPath(emailsPath, cwd, rel) ==
        if IsAbs(rel) || Contains(Clean(rel), "..") then Err(PathTraversal)
        else if Clean(rel) == "." then Ok(root)
        else if root == "/" then Err(PathTraversal)
        else Ok(root + "/" + Clean(rel))
  {
    if !IsAbs(rel) && !Contains(Clean(rel), "..") {
      ResolveReachesVerdict(emailsPath, cwd, rel);
      var rs, segs := ResolvedElements(emailsPath, cwd, rel);
      if segs == [] {
        assert Render(false, segs) == ".";
        VerdictAtRoot(rs);
      } else {
        RenderNotDot(segs);
        if rs == [] {
          VerdictUnderSlash(segs);
        } else {
          VerdictUnderRoot(rs, segs);
        }
      }
    }
  }

  /** A root written as three normal elements is already clean. */
  lemma ThreeElementRoot(a: string, b: string, c: string, cwd: string)
    requires Normal(a) && Normal(b) && Normal(c)
    ensures var root := "/" + a + "/" + b + "/" + c;
      Abs(root, cwd) == root && root != "/"
  {
    var segs := [a, b, c];
    assert segs[1..] == [b, c] && segs[1..][1..] == [c];
    assert Join([c], "/") == c;
    assert Join([b, c], "/") == b + "/" + c;
    assert Join(segs, "/") == a + "/" + (b + "/" + c);
    assert "/" + (a + "/" + (b + "/" + c)) == "/" + a + "/" + b + "/" + c;
    CleanRenderedRooted(segs);
  }

  /** The emails root "/home/user/emails" used by the examples below is clean. */
  lemma ExampleRootIsClean(root: string, cwd: string)
    requires root == "/home/user/emails"
    ensures Abs(root, cwd) == root && root != "/"
  {
    assert root == "/" + "home" + "/" + "user" + "/" + "emails";
    ThreeElementRoot("home", "user", "emails", cwd);
  }

  lemma TwoElements(dir: string, name: string)
    requires dir != ""
    ensures dir + "/" + name == Join([dir, name], "/") && |dir + "/" + name| > 1
  {
    assert [dir, name][1..] == [name];
  }

  lemma SlashAssoc3(root: string, dir: string, name: string)
    ensures root + "/" + (dir + "/" + name) == root + "/" + dir + "/" + name
  {
  }

  /** A name inside a sub-directory of the root resolves to root/dir/name. */
  lemma NestedNameAccepted(emailsPath: string, cwd: string, dir: string, name: string)
    requires IsAbs(cwd) && Abs(emailsPath, cwd) != "/"
    requires Normal(dir) && Normal(name)
    requires !Contains(dir + "/" + name, "..")
    ensures ResolveEmailPath(emailsPath, cwd, dir + "/" + name) ==
      Ok(Abs(emailsPath, cwd) + "/" + dir + "/" + name)
  {
    var root, rel := Abs(emailsPath, cwd), dir + "/" + name;
    TwoElements(dir, name);
    CleanJoinedNormal([dir, name]);
    ResolveClosedForm(emailsPath, cwd, rel);
    SlashAssoc3(root, dir, name);
  }

  /** "inbox/test.eml" has no "..". */
  lemma InboxFileNoClimb(rel: string)
    requires rel == "inbox/test.eml"
    ensures !Contains(rel, "..")
  {
    var stem, ext := "inbox/test", "eml";
    assert rel == stem + "." + ext;
    NoDoubleDot(stem, ext);
  }

  /** "inbox/.hidden" has no "..". */
  lemma HiddenFileNoClimb(rel: string)
    requires rel == "inbox/.hidden"
    ensures !Contains(rel, "..")
  {
    var dir, base := "inbox/", "hidden";
    assert rel == dir + "." + base;
    NoDoubleDot(dir, base);
  }

  /** An ordinary name in a sub-directory resolves under the root. */
  lemma AcceptsInboxFile(cwd: string, root: string, rel: string)
    requires IsAbs(cwd) && root == "/home/user/emails" && rel == "inbox/test.eml"
    ensures ResolveEmailPath(root, cwd, rel) == Ok(root + "/" + rel)
  {
    ExampleRootIsClean(root, cwd);
    InboxFileNoClimb(rel);
    var dir, name := "inbox", "test.eml";
    assert rel == dir + "/" + name;
    NestedNameAccepted(root, cwd, dir, name);
    SlashAssoc3(root, dir, name);
  }

  /** A dot-file is an ordinary name, not a traversal. */
  lemma AcceptsHiddenFile(cwd: string, root: string, rel: string)
    requires IsAbs(cwd) && root == "/home/user/emails" && rel == "inbox/.hidden"
    ensures ResolveEmailPath(root, cwd, rel) == Ok(root + "/" + rel)
  {
    ExampleRootIsClean(root, cwd);
    HiddenFileNoClimb(rel);
    var dir, name := "inbox", ".hidden";
    assert rel == dir + "/" + name;
    NestedNameAccepted(root, cwd, dir, name);
    SlashAssoc3(root, dir, name);
  }

  /** Leading ".." elements survive cleaning and are rejected, whatever follows. */
  lemma RejectsParentClimb(cwd: string, root: string, rest: string)
    ensures ResolveEmailPath(root, cwd, "../" + rest) == Err(PathTraversal)
  {
    var rel := "../" + rest;
    assert rel == ".." + "/" + rest;
    KeptSplitFront("..", rest);
    LeadingParentContained(rel);
  }

  /** An element, then two ".." elements: the second one is kept at the front. */
  lemma ClimbPastFirst(x: string, k: seq<string>)
    requires Normal(x)
    ensures Walk([], [x, "..", ".."] + k, false) == Walk([".."], k, false)
  {
    var s2 := [".."] + k;
    var s1 := [".."] + s2;
    assert [x, "..", ".."] + k == [x] + s1;
    assert ([x] + s1)[1..] == s1 && s1[1..] == s2 && s2[1..] == k;
    assert Step([], x, false) == [x];
    assert Walk([], [x] + s1, false) == Walk([x], s1, false);
    assert Step([x], "..", false) == [];
    assert Walk([x], s1, false) == Walk([], s2, false);
    assert Step([], "..", false) == [".."];
    assert Walk([], s2, false) == Walk([".."], k, false);
  }

  lemma ClimbText(first: string, rest: string)
    requires first != ""
    ensures first + "/../../" + rest == first + "/" + (".." + "/" + (".." + "/" + rest))
    ensures (first + "/../../" + rest)[0] == first[0]
  {
    assert "/../../" == "/" + ".." + "/" + ".." + "/";
  }

  lemma TwoParentElements(rest: string)
    ensures Kept(Split(".." + "/" + (".." + "/" + rest), '/')) == ["..", ".."] + Kept(Split(rest, '/'))
  {
    KeptSplitFront("..", ".." + "/" + rest);
    KeptSplitFront("..", rest);
  }

  /** The elements of first/../../rest: the first element, two "..", then those of rest. */
  lemma InnerClimbElements(first: string, rest: string)
    requires Normal(first)
    ensures Kept(Split(first + "/../../" + rest, '/')) == [first, "..", ".."] + Kept(Split(rest, '/'))
    ensures (first + "/../../" + rest)[0] == first[0]
  {
    var r1 := ".." + "/" + (".." + "/" + rest);
    ClimbText(first, rest);
    KeptSplitFront(first, r1);
    TwoParentElements(rest);
    assert [first] + (["..", ".."] + Kept(Split(rest, '/'))) == [first, "..", ".."] + Kept(Split(rest, '/'));
  }

  /** Two ".." elements after a first element climb out of the root and are
      rejected, whatever follows. */
  lemma RejectsInnerClimb(cwd: string, root: string, first: string, rest: string)
    requires Normal(first)
    ensures ResolveEmailPath(root, cwd, first + "/../../" + rest) == Err(PathTraversal)
  {
    var rel := first + "/../../" + rest;
    InnerClimbElements(first, rest);
    var k := Kept(Split(rest, '/'));
    ClimbPastFirst(first, k);
    WalkKeepsLeadingDotDot([".."], k);
    assert CleanSegments(rel) == Walk([".."], k, false);
    LeadingDotDotContained(rel);
  }

  /** The traversal examples "../../../etc/passwd" and "inbox/../../etc/shadow". */
  lemma RejectedClimbExamples(cwd: string, root: string)
    ensures ResolveEmailPath(root, cwd, "../" + "../../etc/passwd") == Err(PathTraversal)
    ensures ResolveEmailPath(root, cwd, "inbox" + "/../../" + "etc/shadow") == Err(PathTraversal)
  {
    RejectsParentClimb(cwd, root, "../../etc/passwd");
    RejectsInnerClimb(cwd, root, "inbox", "etc/shadow");
  }

  /** A name that merely contains ".." is rejected too. */
  lemma RejectsDotsInName(cwd: string, root: string, rel: string)
    requires rel == "a..b.eml"
    ensures ResolveEmailPath(root, cwd, rel) == Err(PathTraversal)
  {
    assert rel == Join([rel], "/");
    CleanJoinedNormal([rel]);
    assert rel == "a" + ".." + "b.eml";
    OccursWhereWritten("a", "..", "b.eml");
  }
}
