/**
 * Conversation threading (internal/db/conversations.go) over the `emails`
 * table: the nested reply tree with its shared visited set and depth bound,
 * the upward walk to the root of a thread, the flat collection of a thread,
 * and the References list.
 *
 * Tree nodes are values: the Go code builds them through pointers and
 * appends to `parent.Children`; here the node a call returns carries the
 * children and reply count the Go code leaves in the parent.
 */
module Conversations {
  import opened Wrappers
  import opened Text
  import opened Records
  import Recipients

  /** Replies are fetched for a node only while the recursion depth is at most this. */
  const MaxDepth: nat := 50

  /** The guarded root walk follows at most this many parent links. */
  const MaxHops: nat := 100

  /** `ConversationEmail` */
  datatype ConvNode = ConvNode(
    email: Email,
    children: seq<ConvNode>,
    replyCount: int,
    isRoot: bool,
    threadDepth: int)

  predicate NoDup<T(==)>(s: seq<T>) {
    forall i, j :: 0 <= i < j < |s| ==> s[i] != s[j]
  }

  /** The node a reply starts as, before its own replies are fetched. */
  function Fresh(e: Email, depth: int): ConvNode {
    ConvNode(e, [], 0, false, depth)
  }

  /** What the loop adds to a parent's reply count: 1 + the child's count, per child. */
  function Weight(cs: seq<ConvNode>): int {
    if cs == [] then 0 else Weight(cs[..|cs| - 1]) + 1 + cs[|cs| - 1].replyCount
  }

  /** The direct replies of each message id: `GetDirectReplies` over the table. */
  function Kids(table: seq<Email>): string -> seq<Email> {
    mid => DirectReplies(table, mid)
  }

  /** `buildConversationTreeRecursive(n, depth, visited)`, with the replies of a
      message id given by `kids`: the node with its
      children added, and the visited set afterwards.  Replies are fetched only
      for a non-empty message id not yet visited, at a depth of at most `MaxDepth`. */
  function Grow(kids: string -> seq<Email>, n: ConvNode, depth: int, visited: set<string>): (ConvNode, set<string>)
    requires depth >= 1
    decreases MaxDepth + 1 - depth, 1, 0
  {
    var mid := n.email.messageId;
    if mid == "" || mid in visited || depth > MaxDepth then (n, visited)
    else
      Attach(n, GrowAll(kids, kids(mid), depth, visited + {mid}))
  }

  function Attach(n: ConvNode, g: (seq<ConvNode>, set<string>)): (ConvNode, set<string>) {
    (n.(children := n.children + g.0, replyCount := n.replyCount + Weight(g.0)), g.1)
  }

  /** The loop over the replies: each becomes a child at `depth` and is grown at
      `depth + 1`, the visited set threading through from left to right. */
  function GrowAll(kids: string -> seq<Email>, replies: seq<Email>, depth: int, visited: set<string>)
    : (seq<ConvNode>, set<string>)
    requires 1 <= depth <= MaxDepth
    decreases MaxDepth + 1 - depth, 0, |replies|
  {
    if replies == [] then ([], visited)
    else
      var (cs, v) := GrowAll(kids, replies[..|replies| - 1], depth, visited);
      var (c, v') := Grow(kids, Fresh(replies[|replies| - 1], depth), depth + 1, v);
      (cs + [c], v')
  }

  lemma GrowAllStep(kids: string -> seq<Email>, replies: seq<Email>, depth: int, visited: set<string>, i: nat)
    requires 1 <= depth <= MaxDepth && i < |replies|
    ensures var init := GrowAll(kids, replies[..i], depth, visited);
      var last := Grow(kids, Fresh(replies[i], depth), depth + 1, init.1);
      GrowAll(kids, replies[..i + 1], depth, visited) == (init.0 + [last.0], last.1)
  {
    assert replies[..i + 1][..i] == replies[..i];
  }

  /** `BuildConversationTree` */
  function BuildTree(table: seq<Email>, root: Email): ConvNode {
    Grow(Kids(table), ConvNode(root, [], 0, true, 0), 1, {}).0
  }

  /** No node is deeper than `MaxDepth`, a node at that depth has no children,
      and every child sits one level below its parent and is not a root. */
  ghost predicate Shaped(n: ConvNode)
    decreases n
  {
    0 <= n.threadDepth <= MaxDepth &&
    (n.threadDepth == MaxDepth ==> n.children == []) &&
    forall c :: c in n.children ==> !c.isRoot && c.threadDepth == n.threadDepth + 1 && Shaped(c)
  }

  /** The number of nodes in a tree. */
  function Size(n: ConvNode): nat
    decreases n, 1
  {
    1 + SizeAll(n.children)
  }

  function SizeAll(cs: seq<ConvNode>): nat
    decreases cs, 0
  {
    if cs == [] then 0 else SizeAll(cs[..|cs| - 1]) + Size(cs[|cs| - 1])
  }

  /** Every node's reply count is the number of its descendants. */
  ghost predicate Counted(n: ConvNode)
    decreases n
  {
    n.replyCount == Size(n) - 1 && forall c :: c in n.children ==> Counted(c)
  }

  /** The message ids of the nodes that have children, in pre-order. */
  function ParentIds(n: ConvNode): seq<string>
    decreases n, 1
  {
    (if n.children != [] then [n.email.messageId] else []) + ParentIdsAll(n.children)
  }

  function ParentIdsAll(cs: seq<ConvNode>): seq<string>
    decreases cs, 0
  {
    if cs == [] then [] else ParentIdsAll(cs[..|cs| - 1]) + ParentIds(cs[|cs| - 1])
  }

  /** Summing 1 + reply count over counted children gives their total size. */
  lemma {:induction false} WeightIsSize(cs: seq<ConvNode>)
    requires forall i :: 0 <= i < |cs| ==> Counted(cs[i])
    ensures Weight(cs) == SizeAll(cs)
  {
    if cs != [] {
      WeightIsSize(cs[..|cs| - 1]);
    }
  }

  lemma NodeShaped(r: ConvNode)
    requires 0 <= r.threadDepth < MaxDepth
    requires forall i :: 0 <= i < |r.children| ==>
      !r.children[i].isRoot && r.children[i].threadDepth == r.threadDepth + 1 && Shaped(r.children[i])
    ensures Shaped(r)
  {
  }

  lemma NodeCounted(r: ConvNode)
    requires r.replyCount == SizeAll(r.children)
    requires forall i :: 0 <= i < |r.children| ==> Counted(r.children[i])
    ensures Counted(r)
  {
  }

  /** A grown node keeps its own fields, is well shaped and correctly counted. */
  lemma {:induction false} GrowShaped(kids: string -> seq<Email>, n: ConvNode, depth: int, visited: set<string>)
    requires 1 <= depth <= MaxDepth + 1 && n.threadDepth == depth - 1
    requires n.children == [] && n.replyCount == 0
    ensures var r := Grow(kids, n, depth, visited).0;
      r.email == n.email && r.isRoot == n.isRoot && r.threadDepth == n.threadDepth &&
      Shaped(r) && Counted(r)
    decreases MaxDepth + 1 - depth, 1, 0
  {
    var mid := n.email.messageId;
    if mid == "" || mid in visited || depth > MaxDepth {
      GrowSkips(kids, n, depth, visited);
    } else {
      var g := GrowAll(kids, kids(mid), depth, visited + {mid});
      GrowAllShaped(kids, kids(mid), depth, visited + {mid});
      GrowUnfold(kids, n, depth, visited);
      AttachShaped(n, g.0, g.1, kids(mid), depth);
    }
  }

  lemma AttachShaped(n: ConvNode, cs: seq<ConvNode>, v: set<string>, replies: seq<Email>, depth: int)
    requires 1 <= depth <= MaxDepth && n.threadDepth == depth - 1
    requires n.children == [] && n.replyCount == 0
    requires ChildrenOf(cs, replies, depth)
    ensures var r := Attach(n, (cs, v)).0;
      r.email == n.email && r.isRoot == n.isRoot && r.threadDepth == n.threadDepth &&
      Shaped(r) && Counted(r)
  {
    var r := Attach(n, (cs, v)).0;
    assert r.children == cs;
    WeightIsSize(cs);
    NodeShaped(r);
    NodeCounted(r);
  }

  lemma {:induction false} GrowAllShaped(kids: string -> seq<Email>, replies: seq<Email>, depth: int, visited: set<string>)
    requires 1 <= depth <= MaxDepth
    ensures ChildrenOf(GrowAll(kids, replies, depth, visited).0, replies, depth)
    decreases MaxDepth + 1 - depth, 0, |replies|
  {
    if replies != [] {
      var init := replies[..|replies| - 1];
      var g := GrowAll(kids, init, depth, visited);
      GrowAllShaped(kids, init, depth, visited);
      var last := Grow(kids, Fresh(replies[|replies| - 1], depth), depth + 1, g.1);
      GrowShaped(kids, Fresh(replies[|replies| - 1], depth), depth + 1, g.1);
      assert GrowAll(kids, replies, depth, visited).0 == g.0 + [last.0];
      assert replies == init + [replies[|replies| - 1]];
      ChildrenSnoc(g.0, init, last.0, depth);
    }
  }

  /** The children built from `replies` at `depth`: one per reply, in order, each
      shaped and counted. */
  ghost predicate ChildrenOf(cs: seq<ConvNode>, replies: seq<Email>, depth: int) {
    |cs| == |replies| &&
    forall i :: 0 <= i < |cs| ==>
      cs[i].email == replies[i] && !cs[i].isRoot && cs[i].threadDepth == depth &&
      Shaped(cs[i]) && Counted(cs[i])
  }

  lemma ChildrenSnoc(cs: seq<ConvNode>, replies: seq<Email>, c: ConvNode, depth: int)
    requires ChildrenOf(cs, replies, depth)
    requires !c.isRoot && c.threadDepth == depth && Shaped(c) && Counted(c)
    ensures ChildrenOf(cs + [c], replies + [c.email], depth)
  {
    assert forall i :: 0 <= i < |cs| ==> (cs + [c])[i] == cs[i] && (replies + [c.email])[i] == replies[i];
  }

  /** The children of a node are exactly its direct replies, in date order,
      when its replies are fetched: a non-empty id, not yet visited, within the
      depth bound. */
  lemma GrowChildren(kids: string -> seq<Email>, n: ConvNode, depth: int, visited: set<string>)
    requires 1 <= depth <= MaxDepth && n.children == []
    requires n.email.messageId != "" && n.email.messageId !in visited
    ensures var r := Grow(kids, n, depth, visited).0;
      |r.children| == |kids(n.email.messageId)| &&
      forall i :: 0 <= i < |r.children| ==> r.children[i].email == kids(n.email.messageId)[i]
  {
    GrowAllShaped(kids, kids(n.email.messageId), depth, visited + {n.email.messageId});
  }

  /** Otherwise the node and the visited set come back as they were: a reply
      reached again is a leaf with reply count 0. */
  lemma GrowSkips(kids: string -> seq<Email>, n: ConvNode, depth: int, visited: set<string>)
    requires depth >= 1
    requires n.email.messageId == "" || n.email.messageId in visited || depth > MaxDepth
    ensures Grow(kids, n, depth, visited) == (n, visited)
  {
  }

  /** Distinct ids, each visited during the step from `before` to `after`. */
  predicate FreshIds(ids: seq<string>, before: set<string>, after: set<string>) {
    before <= after && NoDup(ids) && forall x :: x in ids ==> x in after && x !in before
  }

  /** Within one build, no message id has its replies fetched twice: the ids of
      the nodes with children are distinct, and each was newly visited. */
  lemma {:induction false} GrowOnce(kids: string -> seq<Email>, n: ConvNode, depth: int, visited: set<string>)
    requires depth >= 1 && n.children == []
    ensures var g := Grow(kids, n, depth, visited);
      FreshIds(ParentIds(g.0), visited, g.1)
    decreases MaxDepth + 1 - depth, 1, 0
  {
    var mid := n.email.messageId;
    if mid == "" || mid in visited || depth > MaxDepth {
      GrowSkips(kids, n, depth, visited);
      assert ParentIds(n) == [] by {
        assert ParentIdsAll([]) == [];
      }
    } else {
      var g := GrowAll(kids, kids(mid), depth, visited + {mid});
      GrowAllOnce(kids, kids(mid), depth, visited + {mid});
      GrowUnfold(kids, n, depth, visited);
      var r := Attach(n, g).0;
      assert r.children == g.0;
      assert ParentIds(r) == (if g.0 != [] then [mid] else []) + ParentIdsAll(g.0);
      FreshIdsPrepend(mid, g.0 != [], ParentIdsAll(g.0), visited, g.1);
    }
  }

  lemma {:induction false} GrowAllOnce(kids: string -> seq<Email>, replies: seq<Email>, depth: int, visited: set<string>)
    requires 1 <= depth <= MaxDepth
    ensures var g := GrowAll(kids, replies, depth, visited);
      FreshIds(ParentIdsAll(g.0), visited, g.1)
    decreases MaxDepth + 1 - depth, 0, |replies|
  {
    if replies == [] {
      assert ParentIdsAll([]) == [];
    } else {
      var init := replies[..|replies| - 1];
      var g := GrowAll(kids, init, depth, visited);
      GrowAllOnce(kids, init, depth, visited);
      var last := Grow(kids, Fresh(replies[|replies| - 1], depth), depth + 1, g.1);
      GrowOnce(kids, Fresh(replies[|replies| - 1], depth), depth + 1, g.1);
      assert GrowAll(kids, replies, depth, visited) == (g.0 + [last.0], last.1);
      assert ParentIdsAll(g.0 + [last.0]) == ParentIdsAll(g.0) + ParentIds(last.0) by {
        assert (g.0 + [last.0])[..|g.0|] == g.0;
      }
      FreshIdsAppend(ParentIdsAll(g.0), ParentIds(last.0), visited, g.1, last.1);
    }
  }

  lemma FreshIdsPrepend(mid: string, keep: bool, ids: seq<string>, before: set<string>, after: set<string>)
    requires mid !in before && FreshIds(ids, before + {mid}, after)
    ensures FreshIds((if keep then [mid] else []) + ids, before, after)
  {
    var s := (if keep then [mid] else []) + ids;
    forall i, j | 0 <= i < j < |s|
      ensures s[i] != s[j]
    {
      if keep {
        assert s[j] == ids[j - 1] && s[j] in ids;
        if i > 0 {
          assert s[i] == ids[i - 1];
        }
      } else {
        assert s[i] == ids[i] && s[j] == ids[j];
      }
    }
  }

  lemma FreshIdsAppend(xs: seq<string>, ys: seq<string>, a: set<string>, b: set<string>, c: set<string>)
    requires FreshIds(xs, a, b) && FreshIds(ys, b, c)
    ensures FreshIds(xs + ys, a, c)
  {
    var s := xs + ys;
    forall i, j | 0 <= i < j < |s|
      ensures s[i] != s[j]
    {
      if i < |xs| <= j {
        assert s[i] in xs && s[j] == ys[j - |xs|] && s[j] in ys;
      } else if |xs| <= i {
        assert s[i] == ys[i - |xs|] && s[j] == ys[j - |xs|];
      }
    }
  }

  /** One step of `Grow` when the replies are fetched. */
  lemma GrowUnfold(kids: string -> seq<Email>, n: ConvNode, depth: int, visited: set<string>)
    requires 1 <= depth <= MaxDepth
    requires n.email.messageId != "" && n.email.messageId !in visited
    ensures var mid := n.email.messageId;
      var g := GrowAll(kids, kids(mid), depth, visited + {mid});
      Grow(kids, n, depth, visited) == Attach(n, g)
  {
  }

  /** `BuildConversationTree`: the root has depth 0 and is marked as root; the
      tree is shaped and counted. */
  lemma BuildTreeShaped(table: seq<Email>, root: Email)
    ensures var t := BuildTree(table, root);
      t.email == root && t.isRoot && t.threadDepth == 0 && Shaped(t) && Counted(t) && NoDup(ParentIds(t))
  {
    GrowShaped(Kids(table), ConvNode(root, [], 0, true, 0), 1, {});
    GrowOnce(Kids(table), ConvNode(root, [], 0, true, 0), 1, {});
  }

  /** `buildConversationTreeRecursive`: the loop appends each grown reply and adds
      1 + its reply count to the parent. */
  method GrowTree(table: seq<Email>, n: ConvNode, depth: int, visited: set<string>)
    returns (r: ConvNode, v: set<string>)
    requires depth >= 1
    ensures (r, v) == Grow(Kids(table), n, depth, visited)
    decreases MaxDepth + 1 - depth, 1
  {
    var mid := n.email.messageId;
    if mid == "" || mid in visited || depth > MaxDepth {
      GrowSkips(Kids(table), n, depth, visited);
      return n, visited;
    }
    var replies := DirectReplies(table, mid);
    r, v := AddReplies(table, n, replies, depth, visited + {mid});
    GrowUnfold(Kids(table), n, depth, visited);
  }

  /** The loop of `buildConversationTreeRecursive` over the fetched replies. */
  method AddReplies(table: seq<Email>, n: ConvNode, replies: seq<Email>, depth: int, visited: set<string>)
    returns (r: ConvNode, v: set<string>)
    requires 1 <= depth <= MaxDepth
    ensures (r, v) == Attach(n, GrowAll(Kids(table), replies, depth, visited))
    decreases MaxDepth + 1 - depth, 0
  {
    r, v := n, visited;
    assert replies[..0] == [];
    assert n.children + [] == n.children;
    assert Attach(n, GrowAll(Kids(table), [], depth, visited)) == (n, visited);
    for i := 0 to |replies|
      invariant (r, v) == Attach(n, GrowAll(Kids(table), replies[..i], depth, visited))
    {
      var child, v' := GrowTree(table, Fresh(replies[i], depth), depth + 1, v);
      AddReplyStep(Kids(table), n, replies, depth, visited, i, r, v, child, v');
      r := r.(children := r.children + [child], replyCount := r.replyCount + 1 + child.replyCount);
      v := v';
    }
    assert replies[..|replies|] == replies;
  }

  lemma AddReplyStep(kids: string -> seq<Email>, n: ConvNode, replies: seq<Email>, depth: int, visited: set<string>,
                     i: nat, r: ConvNode, v: set<string>, child: ConvNode, v': set<string>)
    requires 1 <= depth <= MaxDepth && i < |replies|
    requires (r, v) == Attach(n, GrowAll(kids, replies[..i], depth, visited))
    requires (child, v') == Grow(kids, Fresh(replies[i], depth), depth + 1, v)
    ensures (r.(children := r.children + [child], replyCount := r.replyCount + 1 + child.replyCount), v') ==
      Attach(n, GrowAll(kids, replies[..i + 1], depth, visited))
  {
    var g := GrowAll(kids, replies[..i], depth, visited);
    GrowAllStep(kids, replies, depth, visited, i);
    AttachStep(n, g.0, child, g.1, v');
  }

  /** Attaching one more child adds it at the end and adds its weight. */
  lemma AttachStep(n: ConvNode, cs: seq<ConvNode>, c: ConvNode, v: set<string>, v': set<string>)
    ensures var a := Attach(n, (cs, v)).0;
      Attach(n, (cs + [c], v')) == (a.(children := a.children + [c], replyCount := a.replyCount + 1 + c.replyCount), v')
  {
    assert (cs + [c])[..|cs|] == cs;
    assert n.children + (cs + [c]) == n.children + cs + [c];
  }

  method BuildConversationTree(table: seq<Email>, root: Email) returns (tree: ConvNode)
    ensures tree == BuildTree(table, root)
    ensures tree.email == root && tree.isRoot && tree.threadDepth == 0
    ensures Shaped(tree) && Counted(tree) && NoDup(ParentIds(tree))
  {
    var visited;
    tree, visited := GrowTree(table, ConvNode(root, [], 0, true, 0), 1, {});
    BuildTreeShaped(table, root);
  }

  // ---------------------------------------------------------------------------
  // The root walk.

  /** The parent of an email: the row its in_reply_to names, if any. */
  function Parent(table: seq<Email>, e: Email): Option<Email> {
    if e.inReplyTo == "" then None else LookupByMessageId(table, e.inReplyTo)
  }

  /** The parent lookup of the table as a function. */
  function ParentIn(table: seq<Email>): Email -> Option<Email> {
    e => Parent(table, e)
  }

  /** The emails reached by following parents (given by `up`) from `e`, at most `hops` links. */
  function Walk(up: Email -> Option<Email>, e: Email, hops: nat): (r: seq<Email>)
    ensures 1 <= |r| <= hops + 1 && r[0] == e
    decreases hops
  {
    if hops == 0 || up(e).None? then [e]
    else [e] + Walk(up, up(e).value, hops - 1)
  }

  predicate IdsDistinct(s: seq<Email>) {
    forall i, j :: 0 <= i < j < |s| ==> s[i].messageId != s[j].messageId
  }

  /** The guarded root walk: the last email within `MaxHops` links, or a
      circular reference when a message id comes round again. */
  function WalkRoot(up: Email -> Option<Email>, e: Email): Result<Email, DbError> {
    var w := Walk(up, e, MaxHops);
    if IdsDistinct(w) then Ok(w[|w| - 1]) else Err(CircularReference)
  }

  /** The message ids of a sequence of emails. */
  function MessageIds(s: seq<Email>): set<string> {
    if s == [] then {} else MessageIds(s[..|s| - 1]) + {s[|s| - 1].messageId}
  }

  lemma {:induction false} MessageIdsOf(s: seq<Email>, id: string)
    ensures id in MessageIds(s) <==> exists k :: 0 <= k < |s| && s[k].messageId == id
  {
    if s != [] {
      var init := s[..|s| - 1];
      MessageIdsOf(init, id);
      if exists k :: 0 <= k < |init| && init[k].messageId == id {
        var k :| 0 <= k < |init| && init[k].messageId == id;
        assert s[k] == init[k];
      }
      if exists k :: 0 <= k < |s| && s[k].messageId == id {
        var k :| 0 <= k < |s| && s[k].messageId == id;
        if k < |init| {
          assert init[k] == s[k];
        }
      }
    }
  }

  /** `findConversationRoot`, with a call-local visited set and a hop bound. */
  method FindConversationRoot(table: seq<Email>, e: Email) returns (r: Result<Email, DbError>)
    ensures r == WalkRoot(ParentIn(table), e)
  {
    var current := e;
    var visited := {e.messageId};
    var hops := 0;
    ghost var trail: seq<Email> := [];
    RootLoopStart(ParentIn(table), e);
    while current.inReplyTo != "" && hops < MaxHops
      invariant hops <= MaxHops
      invariant WalkAt(ParentIn(table), e, trail, current, hops)
      invariant SeenOnce(trail, current, visited)
      decreases MaxHops - hops
    {
      var parent := LookupByMessageId(table, current.inReplyTo);
      if parent.None? {
        break;
      }
      var p := parent.value;
      if p.messageId in visited {
        RootLoopCycle(ParentIn(table), e, trail, current, hops, visited, p);
        return Err(CircularReference);
      }
      WalkAtStep(ParentIn(table), e, trail, current, hops, p);
      SeenOnceStep(trail, current, visited, p);
      trail := trail + [current];
      visited := visited + {p.messageId};
      current := p;
      hops := hops + 1;
    }
    RootLoopEnd(ParentIn(table), e, trail, current, hops, visited);
    return Ok(current);
  }

  /** The state of the root walk after `hops` links: `trail` is the walk so far
      and `current` the email reached. */
  ghost predicate WalkAt(up: Email -> Option<Email>, e: Email, trail: seq<Email>, current: Email, hops: nat) {
    hops <= MaxHops && |trail| == hops &&
    Walk(up, e, MaxHops) == trail + Walk(up, current, MaxHops - hops)
  }

  /** No message id repeated so far, and `visited` holds them all. */
  predicate SeenOnce(trail: seq<Email>, current: Email, visited: set<string>) {
    IdsDistinct(trail + [current]) && visited == MessageIds(trail + [current])
  }

  ghost predicate RootLoop(up: Email -> Option<Email>, e: Email, trail: seq<Email>, current: Email, hops: nat, visited: set<string>) {
    WalkAt(up, e, trail, current, hops) && SeenOnce(trail, current, visited)
  }

  lemma RootLoopStart(up: Email -> Option<Email>, e: Email)
    ensures RootLoop(up, e, [], e, 0, {e.messageId})
  {
    assert [] + Walk(up, e, MaxHops) == Walk(up, e, MaxHops);
    assert MessageIds([e]) == {e.messageId} by {
      assert [e][..0] == [];
    }
  }

  lemma WalkAtStep(up: Email -> Option<Email>, e: Email, trail: seq<Email>, current: Email, hops: nat, p: Email)
    requires WalkAt(up, e, trail, current, hops) && hops < MaxHops && up(current) == Some(p)
    ensures WalkAt(up, e, trail + [current], p, hops + 1)
  {
    WalkFollows(up, e, trail, current, p, MaxHops - hops);
  }

  lemma SeenOnceStep(trail: seq<Email>, current: Email, visited: set<string>, p: Email)
    requires SeenOnce(trail, current, visited) && p.messageId !in visited
    ensures SeenOnce(trail + [current], p, visited + {p.messageId})
  {
    DistinctSnoc(trail + [current], p);
  }

  lemma RootLoopCycle(up: Email -> Option<Email>, e: Email, trail: seq<Email>, current: Email, hops: nat, visited: set<string>, p: Email)
    requires RootLoop(up, e, trail, current, hops, visited) && hops < MaxHops
    requires up(current) == Some(p) && p.messageId in visited
    ensures WalkRoot(up, e) == Err(CircularReference)
  {
    WalkFollows(up, e, trail, current, p, MaxHops - hops);
    WalkRepeats(Walk(up, e, MaxHops), trail + [current], p);
  }

  lemma RootLoopEnd(up: Email -> Option<Email>, e: Email, trail: seq<Email>, current: Email, hops: nat, visited: set<string>)
    requires RootLoop(up, e, trail, current, hops, visited)
    requires hops == MaxHops || up(current).None?
    ensures WalkRoot(up, e) == Ok(current)
  {
    WalkEnds(up, e, trail, current, MaxHops - hops);
  }

  /** One more link of the walk, when the parent is found. */
  lemma WalkFollows(up: Email -> Option<Email>, e: Email, trail: seq<Email>, current: Email, p: Email, hops: nat)
    requires hops > 0 && up(current) == Some(p)
    requires Walk(up, e, MaxHops) == trail + Walk(up, current, hops)
    ensures Walk(up, e, MaxHops) == (trail + [current]) + Walk(up, p, hops - 1)
    ensures Walk(up, e, MaxHops)[..|trail| + 1] == trail + [current]
    ensures Walk(up, e, MaxHops)[|trail| + 1] == p
  {
    assert Walk(up, current, hops) == [current] + Walk(up, p, hops - 1);
  }

  /** The walk stops at `current` when it has no stored parent or no hops left. */
  lemma WalkEnds(up: Email -> Option<Email>, e: Email, trail: seq<Email>, current: Email, hops: nat)
    requires hops == 0 || up(current).None?
    requires IdsDistinct(trail + [current])
    requires Walk(up, e, MaxHops) == trail + Walk(up, current, hops)
    ensures WalkRoot(up, e) == Ok(current)
  {
    assert Walk(up, current, hops) == [current];
    var w := Walk(up, e, MaxHops);
    assert w == trail + [current];
    assert w[|w| - 1] == current;
  }

  /** A message id met again on the walk makes it not distinct. */
  lemma WalkRepeats(w: seq<Email>, seen: seq<Email>, p: Email)
    requires |seen| < |w| && w[..|seen|] == seen && w[|seen|] == p
    requires p.messageId in MessageIds(seen)
    ensures !IdsDistinct(w)
  {
    MessageIdsOf(seen, p.messageId);
    var k :| 0 <= k < |seen| && seen[k].messageId == p.messageId;
    assert w[k] == seen[k];
  }

  lemma DistinctSnoc(seen: seq<Email>, p: Email)
    requires IdsDistinct(seen) && p.messageId !in MessageIds(seen)
    ensures IdsDistinct(seen + [p]) && MessageIds(seen + [p]) == MessageIds(seen) + {p.messageId}
  {
    var s := seen + [p];
    assert s[..|seen|] == seen;
    IdsAbsent(seen, p.messageId);
    forall i, j | 0 <= i < j < |s|
      ensures s[i].messageId != s[j].messageId
    {
      if j < |seen| {
        assert s[i] == seen[i] && s[j] == seen[j];
      } else {
        assert s[i] == seen[i] && s[j] == p;
      }
    }
  }

  lemma IdsAbsent(seen: seq<Email>, id: string)
    requires id !in MessageIds(seen)
    ensures forall k :: 0 <= k < |seen| ==> seen[k].messageId != id
  {
    MessageIdsOf(seen, id);
  }

  /** The loop of `findConversationRoot` as written, with no guard; `None` means
      it is still running after `fuel` iterations. */
  function UnguardedWalk(table: seq<Email>, e: Email, fuel: nat): Option<Email>
    decreases fuel
  {
    if fuel == 0 then None
    else if e.inReplyTo == "" then Some(e)
    else match LookupByMessageId(table, e.inReplyTo)
      case None => Some(e)
      case Some(p) => UnguardedWalk(table, p, fuel - 1)
  }

  /** Two stored emails that reply to each other. */
  predicate TwoCycle(a: Email, b: Email) {
    a.messageId != "" && b.messageId != "" && a.messageId != b.messageId &&
    a.inReplyTo == b.messageId && b.inReplyTo == a.messageId
  }

  /** On a two-email cycle the unguarded loop never stops, from either email. */
  lemma {:induction false} UnguardedWalkNeverStops(a: Email, b: Email, fuel: nat)
    requires TwoCycle(a, b)
    ensures UnguardedWalk([a, b], a, fuel).None? && UnguardedWalk([a, b], b, fuel).None?
  {
    if fuel > 0 {
      UnguardedWalkNeverStops(a, b, fuel - 1);
      assert LookupByMessageId([a, b], b.messageId) == Some(b) by {
        assert [a, b][1..] == [b];
      }
      assert LookupByMessageId([a, b], a.messageId) == Some(a);
    }
  }

  /** Two emails whose parents are each other: a walk of two or more links comes back to its start. */
  lemma WalkAroundCycle(up: Email -> Option<Email>, a: Email, b: Email, hops: nat)
    requires up(a) == Some(b) && up(b) == Some(a) && hops >= 2
    ensures !IdsDistinct(Walk(up, a, hops))
  {
    var w, v := Walk(up, a, hops), Walk(up, b, hops - 1);
    assert w == [a] + v;
    assert v == [b] + Walk(up, a, hops - 2);
    assert w[0] == a && w[2] == v[1] == a;
  }

  /** On the same cycle the guarded walk reports a circular reference. */
  lemma GuardedWalkReportsCycle(a: Email, b: Email)
    requires TwoCycle(a, b)
    ensures WalkRoot(ParentIn([a, b]), a) == Err(CircularReference)
  {
    var t := [a, b];
    assert LookupByMessageId(t, b.messageId) == Some(b) by {
      assert t[1..] == [b];
    }
    assert ParentIn(t)(a) == Some(b);
    assert ParentIn(t)(b) == Some(a);
    WalkAroundCycle(ParentIn(t), a, b, MaxHops);
  }

  /** Stored message ids are distinct. */
  predicate UniqueMessageIds(table: seq<Email>) {
    forall i, j :: 0 <= i < j < |table| ==> table[i].messageId != table[j].messageId
  }

  /** Every reply was stored after the email it answers, as when a chain is inserted in order. */
  predicate RepliesPointBack(table: seq<Email>) {
    forall i, j ::
      (0 <= i < |table| && 0 <= j < |table| && table[i].inReplyTo != "" && table[j].messageId == table[i].inReplyTo)
      ==> j < i
  }

  /** On such a table the stored parent of a stored email sits before it. */
  lemma ParentEarlier(table: seq<Email>, k: nat) returns (j: nat)
    requires RepliesPointBack(table) && k < |table| && Parent(table, table[k]).Some?
    ensures j < k && table[j] == Parent(table, table[k]).value
  {
    var p := Parent(table, table[k]).value;
    j :| 0 <= j < |table| && table[j] == p;
  }

  /** An email in front of a distinct walk that holds none of its message id. */
  lemma ConsDistinct(e: Email, w: seq<Email>)
    requires IdsDistinct(w)
    requires forall x :: x in w ==> x.messageId != e.messageId
    ensures IdsDistinct([e] + w)
  {
    var s := [e] + w;
    forall i, j | 0 <= i < j < |s|
      ensures s[i].messageId != s[j].messageId
    {
      assert s[j] == w[j - 1] && s[j] in w;
      if i > 0 {
        assert s[i] == w[i - 1];
      }
    }
  }

  /** On such a table the walk from any stored email never repeats a message id,
      whatever the length of the chain. */
  lemma {:induction false} WalkBackDistinct(table: seq<Email>, k: nat, hops: nat)
    requires UniqueMessageIds(table) && RepliesPointBack(table) && k < |table|
    ensures IdsDistinct(Walk(ParentIn(table), table[k], hops))
    ensures forall x :: x in Walk(ParentIn(table), table[k], hops) ==> exists i :: 0 <= i <= k && table[i] == x
    decreases hops
  {
    var e := table[k];
    if hops > 0 && Parent(table, e).Some? {
      var j := ParentEarlier(table, k);
      WalkBackDistinct(table, j, hops - 1);
      var w := Walk(ParentIn(table), table[j], hops - 1);
      assert Walk(ParentIn(table), e, hops) == [e] + w;
      forall x | x in w
        ensures x.messageId != e.messageId
      {
        var i :| 0 <= i <= j && table[i] == x;
      }
      ConsDistinct(e, w);
    } else {
      assert Walk(ParentIn(table), e, hops) == [e];
    }
  }

  /** A chain stored in order, of any length, yields a root and no error. */
  lemma ChainWalkSucceeds(table: seq<Email>, k: nat)
    requires UniqueMessageIds(table) && RepliesPointBack(table) && k < |table|
    ensures WalkRoot(ParentIn(table), table[k]).Ok?
  {
    WalkBackDistinct(table, k, MaxHops);
  }

  // ---------------------------------------------------------------------------
  // The flat collection of a thread.

  /** The message ids stored in the table. */
  function StoredIds(table: seq<Email>): set<string> {
    set i | 0 <= i < |table| :: table[i].messageId
  }

  /** `getConversationEmailsRecursive(mid, visited)`: the email with that id, then
      what each direct reply collects, and the visited set afterwards. */
  function Collect(table: seq<Email>, mid: string, visited: set<string>): (r: (seq<Email>, set<string>))
    ensures visited <= r.1
    ensures mid != "" ==> mid in r.1
    decreases |StoredIds(table) - visited|, 0, 0
  {
    if mid == "" || mid in visited then ([], visited)
    else
      var found := LookupByMessageId(table, mid);
      if found.None? then ([], visited + {mid})
      else
        LookupStored(table, mid);
        FewerUnvisited(StoredIds(table), visited, mid);
        Prepend(found.value, CollectAll(table, DirectReplies(table, mid), visited + {mid}))
  }

  function Prepend(e: Email, g: (seq<Email>, set<string>)): (seq<Email>, set<string>) {
    ([e] + g.0, g.1)
  }

  function CollectAll(table: seq<Email>, replies: seq<Email>, visited: set<string>): (r: (seq<Email>, set<string>))
    ensures visited <= r.1
    decreases |StoredIds(table) - visited|, 1, |replies|
  {
    if replies == [] then ([], visited)
    else
      var g := CollectAll(table, replies[..|replies| - 1], visited);
      NoMoreUnvisited(StoredIds(table), visited, g.1);
      var h := Collect(table, replies[|replies| - 1].messageId, g.1);
      (g.0 + h.0, h.1)
  }

  lemma LookupStored(table: seq<Email>, mid: string)
    requires LookupByMessageId(table, mid).Some?
    ensures mid in StoredIds(table)
  {
    var e := LookupByMessageId(table, mid).value;
    var k :| 0 <= k < |table| && table[k] == e;
  }

  /** Visiting one more stored id leaves fewer stored ids unvisited. */
  lemma FewerUnvisited(stored: set<string>, visited: set<string>, mid: string)
    requires mid in stored && mid !in visited
    ensures |stored - (visited + {mid})| < |stored - visited|
  {
    assert stored - visited == (stored - (visited + {mid})) + {mid};
  }

  /** A larger visited set leaves no more stored ids unvisited. */
  lemma NoMoreUnvisited(stored: set<string>, visited: set<string>, v: set<string>)
    requires visited <= v
    ensures |stored - v| <= |stored - visited|
  {
    var a, b := stored - v, stored - visited;
    assert b == a + (b - a);
  }

  /** Stored rows with distinct message ids, each visited during the step from
      `before` to `after`. */
  predicate FreshRun(rs: seq<Email>, table: seq<Email>, before: set<string>, after: set<string>) {
    IdsDistinct(rs) && forall x :: x in rs ==> x in table && x.messageId in after && x.messageId !in before
  }

  /** The collected emails are stored rows with distinct message ids, each newly
      visited; a stored, unvisited id gives a result that starts with its email,
      and an empty or visited one gives nothing. */
  lemma {:induction false} CollectOnce(table: seq<Email>, mid: string, visited: set<string>)
    ensures var g := Collect(table, mid, visited);
      FreshRun(g.0, table, visited, g.1) &&
      (g.0 != [] ==> g.0[0].messageId == mid) &&
      (mid != "" && mid !in visited && LookupByMessageId(table, mid).Some? ==>
        g.0 != [] && g.0[0] == LookupByMessageId(table, mid).value) &&
      (mid == "" || mid in visited ==> g.0 == [])
    decreases |StoredIds(table) - visited|, 0, 0
  {
    if mid == "" || mid in visited {
      assert Collect(table, mid, visited) == ([], visited);
    } else {
      var found := LookupByMessageId(table, mid);
      if found.None? {
        assert Collect(table, mid, visited) == ([], visited + {mid});
      } else {
        LookupStored(table, mid);
        FewerUnvisited(StoredIds(table), visited, mid);
        var g := CollectAll(table, DirectReplies(table, mid), visited + {mid});
        CollectAllOnce(table, DirectReplies(table, mid), visited + {mid});
        assert Collect(table, mid, visited) == Prepend(found.value, g);
        PrependFresh(found.value, g.0, table, visited, g.1);
      }
    }
  }

  lemma {:induction false} CollectAllOnce(table: seq<Email>, replies: seq<Email>, visited: set<string>)
    ensures var g := CollectAll(table, replies, visited);
      FreshRun(g.0, table, visited, g.1)
    decreases |StoredIds(table) - visited|, 1, |replies|
  {
    if replies != [] {
      var init := replies[..|replies| - 1];
      var g := CollectAll(table, init, visited);
      CollectAllOnce(table, init, visited);
      NoMoreUnvisited(StoredIds(table), visited, g.1);
      var h := Collect(table, replies[|replies| - 1].messageId, g.1);
      CollectOnce(table, replies[|replies| - 1].messageId, g.1);
      assert CollectAll(table, replies, visited) == (g.0 + h.0, h.1);
      AppendFresh(g.0, h.0, table, visited, g.1, h.1);
    }
  }

  lemma PrependFresh(e: Email, rs: seq<Email>, table: seq<Email>, visited: set<string>, v: set<string>)
    requires e in table && e.messageId !in visited && visited + {e.messageId} <= v
    requires FreshRun(rs, table, visited + {e.messageId}, v)
    ensures FreshRun([e] + rs, table, visited, v)
  {
    var r := [e] + rs;
    forall i, j | 0 <= i < j < |r|
      ensures r[i].messageId != r[j].messageId
    {
      assert r[j] == rs[j - 1] && r[j] in rs;
      if i > 0 {
        assert r[i] == rs[i - 1];
      }
    }
  }

  lemma AppendFresh(xs: seq<Email>, ys: seq<Email>, table: seq<Email>, visited: set<string>, v: set<string>, v': set<string>)
    requires visited <= v <= v'
    requires FreshRun(xs, table, visited, v) && FreshRun(ys, table, v, v')
    ensures FreshRun(xs + ys, table, visited, v')
  {
    var r := xs + ys;
    forall i, j | 0 <= i < j < |r|
      ensures r[i].messageId != r[j].messageId
    {
      if j >= |xs| && i < |xs| {
        assert r[i] in xs && r[j] == ys[j - |xs|] && r[j] in ys;
      } else if i >= |xs| {
        assert r[i] == ys[i - |xs|] && r[j] == ys[j - |xs|];
      }
    }
  }

  /** No two stored rows share a non-empty message id. */
  predicate NonEmptyIdsUnique(table: seq<Email>) {
    forall i, j :: 0 <= i < j < |table| && table[i].messageId != "" ==> table[i].messageId != table[j].messageId
  }

  lemma SameIdSameRow(table: seq<Email>, x: Email, y: Email)
    requires NonEmptyIdsUnique(table) && x in table && y in table
    requires x.messageId == y.messageId != ""
    ensures x == y
  {
    var i :| 0 <= i < |table| && table[i] == x;
    var j :| 0 <= j < |table| && table[j] == y;
    assert i == j;
  }

  /** Every stored row whose message id was first visited between `before` and
      `after` is in `rs`. */
  predicate CoversVisited(table: seq<Email>, rs: seq<Email>, before: set<string>, after: set<string>) {
    forall x :: x in table && x.messageId in after && x.messageId !in before ==> x in rs
  }

  /** Every stored row whose message id the collection visited is collected,
      when non-empty message ids are unique. */
  lemma {:induction false} CollectCovers(table: seq<Email>, mid: string, visited: set<string>)
    requires NonEmptyIdsUnique(table)
    ensures var g := Collect(table, mid, visited); CoversVisited(table, g.0, visited, g.1)
    decreases |StoredIds(table) - visited|, 0, 0
  {
    if mid != "" && mid !in visited {
      var found := LookupByMessageId(table, mid);
      if found.None? {
        assert Collect(table, mid, visited) == ([], visited + {mid});
        forall x | x in table
          ensures x.messageId != mid
        {
          var k :| 0 <= k < |table| && table[k] == x;
        }
      } else {
        LookupStored(table, mid);
        FewerUnvisited(StoredIds(table), visited, mid);
        var h := CollectAll(table, DirectReplies(table, mid), visited + {mid});
        CollectAllCovers(table, DirectReplies(table, mid), visited + {mid});
        assert Collect(table, mid, visited) == Prepend(found.value, h);
        CoversPrepend(table, found.value, h.0, visited, h.1);
      }
    }
  }

  /** The row with the newly visited id, put in front of what covers the rest, covers all. */
  lemma CoversPrepend(table: seq<Email>, e: Email, rs: seq<Email>, visited: set<string>, v: set<string>)
    requires NonEmptyIdsUnique(table) && e in table && e.messageId != ""
    requires CoversVisited(table, rs, visited + {e.messageId}, v)
    ensures CoversVisited(table, [e] + rs, visited, v)
  {
    forall x | x in table && x.messageId in v && x.messageId !in visited
      ensures x in [e] + rs
    {
      if x.messageId == e.messageId {
        SameIdSameRow(table, x, e);
      } else {
        assert x in rs;
      }
    }
  }

  lemma {:induction false} CollectAllCovers(table: seq<Email>, replies: seq<Email>, visited: set<string>)
    requires NonEmptyIdsUnique(table)
    ensures var g := CollectAll(table, replies, visited); CoversVisited(table, g.0, visited, g.1)
    decreases |StoredIds(table) - visited|, 1, |replies|
  {
    if replies != [] {
      var init := replies[..|replies| - 1];
      var g := CollectAll(table, init, visited);
      CollectAllCovers(table, init, visited);
      NoMoreUnvisited(StoredIds(table), visited, g.1);
      var h := Collect(table, replies[|replies| - 1].messageId, g.1);
      CollectCovers(table, replies[|replies| - 1].messageId, g.1);
      assert CollectAll(table, replies, visited) == (g.0 + h.0, h.1);
    }
  }

  /** Every direct reply, with a message id, of an email in `rs` has its id in `v`. */
  predicate RepliesVisited(table: seq<Email>, rs: seq<Email>, v: set<string>) {
    forall e, x :: e in rs && x in DirectReplies(table, e.messageId) && x.messageId != "" ==> x.messageId in v
  }

  lemma RepliesVisitedPrepend(table: seq<Email>, e: Email, rs: seq<Email>, v: set<string>)
    requires forall x :: x in DirectReplies(table, e.messageId) && x.messageId != "" ==> x.messageId in v
    requires RepliesVisited(table, rs, v)
    ensures RepliesVisited(table, [e] + rs, v)
  {
    forall d | d in [e] + rs
      ensures d == e || d in rs
    {
    }
  }

  /** Every direct reply, with a message id, of a collected email has its id visited. */
  lemma {:induction false} CollectClosed(table: seq<Email>, mid: string, visited: set<string>)
    ensures var g := Collect(table, mid, visited); RepliesVisited(table, g.0, g.1)
    decreases |StoredIds(table) - visited|, 0, 0
  {
    if mid != "" && mid !in visited {
      var found := LookupByMessageId(table, mid);
      if found.Some? {
        LookupStored(table, mid);
        FewerUnvisited(StoredIds(table), visited, mid);
        var h := CollectAll(table, DirectReplies(table, mid), visited + {mid});
        CollectAllClosed(table, DirectReplies(table, mid), visited + {mid});
        assert Collect(table, mid, visited) == Prepend(found.value, h);
        RepliesVisitedPrepend(table, found.value, h.0, h.1);
      }
    }
  }

  lemma {:induction false} CollectAllClosed(table: seq<Email>, replies: seq<Email>, visited: set<string>)
    ensures var g := CollectAll(table, replies, visited);
      (forall x :: x in replies && x.messageId != "" ==> x.messageId in g.1) &&
      RepliesVisited(table, g.0, g.1)
    decreases |StoredIds(table) - visited|, 1, |replies|
  {
    if replies != [] {
      var init := replies[..|replies| - 1];
      var g := CollectAll(table, init, visited);
      CollectAllClosed(table, init, visited);
      NoMoreUnvisited(StoredIds(table), visited, g.1);
      var last := replies[|replies| - 1];
      var h := Collect(table, last.messageId, g.1);
      CollectClosed(table, last.messageId, g.1);
      assert CollectAll(table, replies, visited) == (g.0 + h.0, h.1);
      assert forall x :: x in replies ==> x in init || x == last;
    }
  }

  /** Every direct reply, with a message id, of an email in the list is in the list. */
  predicate ThreadClosed(table: seq<Email>, rs: seq<Email>) {
    forall e, x :: e in rs && x in DirectReplies(table, e.messageId) && x.messageId != "" ==> x in rs
  }

  /** A thread collected from scratch holds every reply of every email in it,
      hence every email reached from the first by replies with a message id. */
  lemma ThreadComplete(table: seq<Email>, mid: string)
    requires NonEmptyIdsUnique(table)
    ensures ThreadClosed(table, Collect(table, mid, {}).0)
  {
    CollectClosed(table, mid, {});
    CollectCovers(table, mid, {});
  }

  /** Following parents through the table stays inside the table. */
  lemma {:induction false} WalkStored(table: seq<Email>, e: Email, hops: nat)
    requires e in table
    ensures forall x :: x in Walk(ParentIn(table), e, hops) ==> x in table
    decreases hops
  {
    if hops > 0 && Parent(table, e).Some? {
      WalkStored(table, Parent(table, e).value, hops - 1);
    }
  }

  /** `getConversationEmailsRecursive`: the email looked up, then its replies' threads. */
  method CollectThread(table: seq<Email>, mid: string, visited: set<string>)
    returns (r: seq<Email>, v: set<string>)
    ensures (r, v) == Collect(table, mid, visited)
    decreases |StoredIds(table) - visited|, 0
  {
    if mid == "" || mid in visited {
      return [], visited;
    }
    var found := LookupByMessageId(table, mid);
    if found.None? {
      return [], visited + {mid};
    }
    LookupStored(table, mid);
    FewerUnvisited(StoredIds(table), visited, mid);
    var replies := DirectReplies(table, mid);
    var rest;
    rest, v := CollectReplies(table, replies, visited + {mid});
    r := [found.value] + rest;
  }

  /** The loop of `getConversationEmailsRecursive` over the direct replies. */
  method CollectReplies(table: seq<Email>, replies: seq<Email>, visited: set<string>)
    returns (r: seq<Email>, v: set<string>)
    ensures (r, v) == CollectAll(table, replies, visited)
    decreases |StoredIds(table) - visited|, 1
  {
    r, v := [], visited;
    assert replies[..0] == [];
    for i := 0 to |replies|
      invariant (r, v) == CollectAll(table, replies[..i], visited)
    {
      assert replies[..i + 1][..i] == replies[..i];
      NoMoreUnvisited(StoredIds(table), visited, v);
      var more, v' := CollectThread(table, replies[i].messageId, v);
      r := r + more;
      v := v';
    }
    assert replies[..|replies|] == replies;
  }

  /** `GetConversationEmails`: the thread of the root that the guarded walk finds. */
  method GetConversationEmails(table: seq<Email>, emailId: int) returns (r: Result<seq<Email>, DbError>)
    ensures EmailById(table, emailId).None? ==> r == Err(EmailNotFound)
    ensures EmailById(table, emailId).Some? ==>
      var root := WalkRoot(ParentIn(table), EmailById(table, emailId).value);
      (root.Err? ==> r == Err(CircularReference)) &&
      (root.Ok? ==> r == Ok(Collect(table, root.value.messageId, {}).0)) &&
      (root.Ok? && root.value.messageId != "" && NonEmptyIdsUnique(table) ==> r.value != [] && r.value[0] == root.value)
    ensures r.Ok? ==> IdsDistinct(r.value) && forall e :: e in r.value ==> e in table
    ensures r.Ok? && NonEmptyIdsUnique(table) ==> ThreadClosed(table, r.value)
  {
    var email := EmailById(table, emailId);
    if email.None? {
      return Err(EmailNotFound);
    }
    var root := FindConversationRoot(table, email.value);
    if root.Err? {
      return Err(root.error);
    }
    var thread, _ := CollectThread(table, root.value.messageId, {});
    CollectOnce(table, root.value.messageId, {});
    WalkStored(table, email.value, MaxHops);
    var w := Walk(ParentIn(table), email.value, MaxHops);
    assert root.value == w[|w| - 1] && root.value in w;
    if NonEmptyIdsUnique(table) {
      ThreadComplete(table, root.value.messageId);
      if root.value.messageId != "" {
        SameIdSameRow(table, root.value, LookupByMessageId(table, root.value.messageId).value);
      }
    }
    return Ok(thread);
  }

  // ---------------------------------------------------------------------------
  // The References list.

  /** `GetReferencesList`: the comma-separated pieces, trimmed, empty ones dropped. */
  method GetReferencesList(e: Email) returns (refs: seq<string>)
    ensures refs == Recipients.Tokens(e.threadReferences)
    ensures forall k :: 0 <= k < |refs| ==> Recipients.CleanAddress(refs[k])
  {
    if e.threadReferences == "" {
      return [];
    }
    var parts := Split(e.threadReferences, ',');
    refs := [];
    for j := 0 to |parts|
      invariant refs == Recipients.TokensOf(parts[..j])
    {
      Recipients.TokensOfStep(parts, j);
      var ref := TrimSpace(parts[j]);
      if ref != "" {
        refs := refs + [ref];
      }
    }
    assert parts[..|parts|] == parts;
    Recipients.TokensClean(e.threadReferences);
  }
}
