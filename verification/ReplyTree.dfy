/** The reply tree of a conversation, built recursively from an index of replies. */
module ReplyTree {
  import opened Base

  datatype Node = Node(apId: string, inReplyTo: Option<string>, publishedAt: int)

  datatype Tree = Tree(node: Node, isRequested: bool, isRoot: bool, children: seq<Tree>)

  /** AP ids are unique in the tables the nodes come from. */
  ghost predicate UniqueIds(nodes: seq<Node>) {
    forall i, j :: 0 <= i < j < |nodes| ==> nodes[i].apId != nodes[j].apId
  }

  lemma SameId(nodes: seq<Node>, a: Node, b: Node)
    requires UniqueIds(nodes) && a in nodes && b in nodes && a.apId == b.apId
    ensures a == b
  {
    var i :| 0 <= i < |nodes| && nodes[i] == a;
    var j :| 0 <= j < |nodes| && nodes[j] == b;
  }

  function RepliesTo(key: Option<string>): Node -> bool {
    (n: Node) => n.inReplyTo == key
  }

  ghost predicate Indexed(index: map<Option<string>, seq<Node>>, nodes: seq<Node>) {
    forall key :: Lookup(index, key) == Filter(RepliesTo(key), nodes)
  }

  function Lookup(index: map<Option<string>, seq<Node>>, key: Option<string>): seq<Node> {
    if key in index then index[key] else []
  }

  /** The index of replies, filled node by node. */
  method IndexReplies(nodes: seq<Node>) returns (index: map<Option<string>, seq<Node>>)
    ensures Indexed(index, nodes)
  {
    index := map[];
    for n := 0 to |nodes|
      invariant Indexed(index, nodes[..n])
    {
      assert nodes[..n + 1] == nodes[..n] + [nodes[n]];
      var key := nodes[n].inReplyTo;
      forall k {
        FilterSnoc(RepliesTo(k), nodes[..n], nodes[n]);
      }
      index := index[key := Lookup(index, key) + [nodes[n]]];
    }
    assert nodes[..|nodes|] == nodes;
  }

  // ---------------------------------------------------------------- reply chains

  /** A descent: each node replies to the one before it. */
  ghost predicate Chain(nodes: seq<Node>, path: seq<Node>) {
    && path != []
    && (forall n <- path :: n in nodes)
    && forall i :: 0 <= i < |path| - 1 ==> path[i + 1].inReplyTo == Some(path[i].apId)
  }

  ghost predicate ChainTo(nodes: seq<Node>, path: seq<Node>, root: Node, n: Node) {
    Chain(nodes, path) && path[0] == root && path[|path| - 1] == n
  }

  /** Some descent from the node leads back to it. */
  ghost predicate OnCycle(nodes: seq<Node>, n: Node) {
    exists path :: ChainTo(nodes, path, n, n) && |path| > 1
  }

  ghost predicate Reaches(nodes: seq<Node>, root: Node, n: Node) {
    exists path :: ChainTo(nodes, path, root, n)
  }

  /** A node without a parent is on no cycle, whatever the other nodes do. */
  lemma ParentlessIsNotOnCycle(nodes: seq<Node>, root: Node)
    requires root.inReplyTo == None
    ensures !OnCycle(nodes, root)
  {
    forall path: seq<Node> | Chain(nodes, path) && |path| > 1
      ensures path[|path| - 1] != root
    {
      assert path[|path| - 2 + 1].inReplyTo == Some(path[|path| - 2].apId);
    }
  }

  lemma ChainPrefix(nodes: seq<Node>, path: seq<Node>, k: nat)
    requires Chain(nodes, path) && 0 < k <= |path|
    ensures Chain(nodes, path[..k])
  {
  }

  lemma ChainSnoc(nodes: seq<Node>, path: seq<Node>, n: Node)
    requires Chain(nodes, path) && n in nodes && n.inReplyTo == Some(path[|path| - 1].apId)
    ensures Chain(nodes, path + [n])
  {
  }

  /** Walking up from a node there is only one way to a root that is on no cycle. */
  lemma {:induction false} ChainsAreUnique(nodes: seq<Node>, root: Node, p: seq<Node>, q: seq<Node>)
    requires UniqueIds(nodes) && !OnCycle(nodes, root)
    requires Chain(nodes, p) && Chain(nodes, q) && p[0] == q[0] == root
    requires p[|p| - 1] == q[|q| - 1]
    ensures p == q
    decreases |p|
  {
    var m, n := |p| - 1, |q| - 1;
    if m == 0 || n == 0 {
      assert ChainTo(nodes, p, root, p[m]) && ChainTo(nodes, q, root, q[n]);
    } else {
      assert p[m - 1 + 1].inReplyTo == Some(p[m - 1].apId);
      assert q[n - 1 + 1].inReplyTo == Some(q[n - 1].apId);
      SameId(nodes, p[m - 1], q[n - 1]);
      ChainPrefix(nodes, p, m);
      ChainPrefix(nodes, q, n);
      ChainsAreUnique(nodes, root, p[..m], q[..n]);
      assert p == p[..m] + [p[m]] && q == q[..n] + [q[n]];
    }
  }

  /** A descent from such a root never visits a node twice, so it is no longer than the node list. */
  lemma ChainIsShort(nodes: seq<Node>, root: Node, path: seq<Node>)
    requires UniqueIds(nodes) && !OnCycle(nodes, root)
    requires Chain(nodes, path) && path[0] == root
    ensures |path| <= |nodes|
  {
    forall i, j | 0 <= i < j < |path|
      ensures path[i] != path[j]
    {
      if path[i] == path[j] {
        ChainPrefix(nodes, path, i + 1);
        ChainPrefix(nodes, path, j + 1);
        ChainsAreUnique(nodes, root, path[..i + 1], path[..j + 1]);
      }
    }
    DistinctFits(path, nodes);
  }

  // ---------------------------------------------------------------- sorting

  /** Inserts behind every tree published no later: insertion in this order is a stable sort. */
  function Insert(t: Tree, sorted: seq<Tree>): seq<Tree> {
    if sorted == [] || t.node.publishedAt < sorted[0].node.publishedAt then [t] + sorted
    else [sorted[0]] + Insert(t, sorted[1..])
  }

  function SortByDate(trees: seq<Tree>): seq<Tree> {
    if trees == [] then [] else Insert(trees[|trees| - 1], SortByDate(trees[..|trees| - 1]))
  }

  ghost predicate SortedByDate(trees: seq<Tree>) {
    forall i, j :: 0 <= i < j < |trees| ==> trees[i].node.publishedAt <= trees[j].node.publishedAt
  }

  function PublishedAt(date: int): Tree -> bool {
    (t: Tree) => t.node.publishedAt == date
  }

  lemma {:induction false} InsertKeepsTrees(t: Tree, sorted: seq<Tree>)
    ensures multiset(Insert(t, sorted)) == multiset(sorted) + multiset{t}
    ensures forall x :: x in Insert(t, sorted) <==> x == t || x in sorted
  {
    if sorted != [] && t.node.publishedAt >= sorted[0].node.publishedAt {
      InsertKeepsTrees(t, sorted[1..]);
      assert sorted == [sorted[0]] + sorted[1..];
    }
  }

  lemma {:induction false} InsertKeepsOrder(t: Tree, sorted: seq<Tree>)
    requires SortedByDate(sorted)
    ensures SortedByDate(Insert(t, sorted))
  {
    if sorted != [] && t.node.publishedAt >= sorted[0].node.publishedAt {
      InsertKeepsOrder(t, sorted[1..]);
      InsertKeepsTrees(t, sorted[1..]);
      forall x | x in Insert(t, sorted[1..])
        ensures x.node.publishedAt >= sorted[0].node.publishedAt
      {
        if x != t {
          var i :| 0 <= i < |sorted| - 1 && sorted[1..][i] == x;
          assert x == sorted[i + 1];
        }
      }
    }
  }

  lemma {:induction false} InsertIsStable(t: Tree, sorted: seq<Tree>, date: int)
    requires SortedByDate(sorted)
    ensures Filter(PublishedAt(date), Insert(t, sorted)) == Filter(PublishedAt(date), sorted + [t])
  {
    FilterSnoc(PublishedAt(date), sorted, t);
    if sorted == [] {
      assert [t] + sorted == [t];
    } else if t.node.publishedAt < sorted[0].node.publishedAt {
      if t.node.publishedAt == date {
        FilterNothing(PublishedAt(date), sorted);
      }
      assert ([t] + sorted)[1..] == sorted;
    } else {
      InsertIsStable(t, sorted[1..], date);
      FilterSnoc(PublishedAt(date), sorted[1..], t);
      assert ([sorted[0]] + Insert(t, sorted[1..]))[1..] == Insert(t, sorted[1..]);
    }
  }

  /** Sorted, the same trees, and trees of the same date in the order they had. */
  lemma {:induction false} SortIsStable(trees: seq<Tree>, date: int)
    ensures SortedByDate(SortByDate(trees))
    ensures multiset(SortByDate(trees)) == multiset(trees)
    ensures Filter(PublishedAt(date), SortByDate(trees)) == Filter(PublishedAt(date), trees)
  {
    if trees != [] {
      var n := |trees| - 1;
      assert trees == trees[..n] + [trees[n]];
      SortIsStable(trees[..n], date);
      InsertKeepsOrder(trees[n], SortByDate(trees[..n]));
      InsertKeepsTrees(trees[n], SortByDate(trees[..n]));
      InsertIsStable(trees[n], SortByDate(trees[..n]), date);
      FilterSnoc(PublishedAt(date), SortByDate(trees[..n]), trees[n]);
      FilterSnoc(PublishedAt(date), trees[..n], trees[n]);
    }
  }

  // ---------------------------------------------------------------- building the tree

  /** What the recursion is called with: the descent from the root to the node. */
  ghost predicate Descent(nodes: seq<Node>, path: seq<Node>, n: Node) {
    && UniqueIds(nodes)
    && Chain(nodes, path) && path[|path| - 1] == n
    && !OnCycle(nodes, path[0])
  }

  function Build(n: Node, index: map<Option<string>, seq<Node>>, requested: string, isRoot: bool,
      ghost nodes: seq<Node>, ghost path: seq<Node>): Tree
    requires Descent(nodes, path, n) && Indexed(index, nodes)
    decreases |nodes| - |path|, 1, 0
  {
    var replies := Lookup(index, Some(n.apId));
    RepliesAre(index, nodes, n);
    Tree(n, n.apId == requested, isRoot, SortByDate(BuildAll(replies, index, requested, nodes, path)))
  }

  function BuildAll(replies: seq<Node>, index: map<Option<string>, seq<Node>>, requested: string,
      ghost nodes: seq<Node>, ghost path: seq<Node>): (trees: seq<Tree>)
    requires path != [] && Descent(nodes, path, path[|path| - 1]) && Indexed(index, nodes)
    requires RepliesOf(replies, nodes, path[|path| - 1])
    ensures |trees| == |replies|
    decreases |nodes| - |path|, 0, |replies|
  {
    if replies == [] then [] else
      NextDescent(nodes, path, replies[0]);
      [Build(replies[0], index, requested, false, nodes, path + [replies[0]])]
        + BuildAll(replies[1..], index, requested, nodes, path)
  }

  ghost predicate RepliesOf(replies: seq<Node>, nodes: seq<Node>, n: Node) {
    forall r <- replies :: r in nodes && r.inReplyTo == Some(n.apId)
  }

  lemma RepliesAre(index: map<Option<string>, seq<Node>>, nodes: seq<Node>, n: Node)
    requires Indexed(index, nodes)
    ensures RepliesOf(Lookup(index, Some(n.apId)), nodes, n)
    ensures forall r <- nodes :: r.inReplyTo == Some(n.apId) ==> r in Lookup(index, Some(n.apId))
    ensures UniqueIds(nodes) ==> Distinct(Lookup(index, Some(n.apId)))
  {
    FilterMembers(RepliesTo(Some(n.apId)), nodes);
    if UniqueIds(nodes) {
      FilterDistinct(RepliesTo(Some(n.apId)), nodes);
    }
  }

  /** The recursion goes one step deeper and still fits into the node list: this is why it ends. */
  lemma NextDescent(nodes: seq<Node>, path: seq<Node>, r: Node)
    requires path != [] && Descent(nodes, path, path[|path| - 1])
    requires r in nodes && r.inReplyTo == Some(path[|path| - 1].apId)
    ensures Descent(nodes, path + [r], r)
    ensures |path| + 1 <= |nodes|
  {
    ChainSnoc(nodes, path, r);
    ChainIsShort(nodes, path[0], path + [r]);
  }

  // ---------------------------------------------------------------- what the tree holds

  /** The nodes of a tree, each before its replies. */
  function Flatten(t: Tree): seq<Node> {
    [t.node] + FlattenAll(t.children)
  }

  function FlattenAll(trees: seq<Tree>): seq<Node> {
    if trees == [] then [] else Flatten(trees[0]) + FlattenAll(trees[1..])
  }

  lemma {:induction false} FlattenInsert(t: Tree, trees: seq<Tree>)
    ensures multiset(FlattenAll(Insert(t, trees))) == multiset(Flatten(t)) + multiset(FlattenAll(trees))
  {
    if trees != [] && t.node.publishedAt >= trees[0].node.publishedAt {
      FlattenInsert(t, trees[1..]);
      assert Insert(t, trees)[1..] == Insert(t, trees[1..]);
    } else {
      assert ([t] + trees)[1..] == trees;
    }
  }

  lemma {:induction false} FlattenSnoc(trees: seq<Tree>, t: Tree)
    ensures FlattenAll(trees + [t]) == FlattenAll(trees) + Flatten(t)
  {
    if trees == [] {
      assert trees + [t] == [t];
    } else {
      assert (trees + [t])[1..] == trees[1..] + [t];
      FlattenSnoc(trees[1..], t);
    }
  }

  /** Sorting siblings moves no node in or out of the tree. */
  lemma {:induction false} FlattenSorted(trees: seq<Tree>)
    ensures multiset(FlattenAll(SortByDate(trees))) == multiset(FlattenAll(trees))
  {
    hide Flatten, Insert;
    if trees != [] {
      var n := |trees| - 1;
      FlattenSorted(trees[..n]);
      FlattenInsert(trees[n], SortByDate(trees[..n]));
      FlattenSnoc(trees[..n], trees[n]);
      assert trees == trees[..n] + [trees[n]];
    }
  }

  /** A descent that extends the one to n leads to m. */
  ghost predicate Below(nodes: seq<Node>, path: seq<Node>, m: Node) {
    exists longer :: Chain(nodes, longer) && path <= longer && longer[|longer| - 1] == m
  }

  lemma BelowChild(nodes: seq<Node>, path: seq<Node>, child: Node, m: Node)
    requires path != [] && Below(nodes, path + [child], m)
    ensures Below(nodes, path, m)
  {
    var longer :| Chain(nodes, longer) && path + [child] <= longer && longer[|longer| - 1] == m;
    assert path <= longer;
  }

  lemma FlattenChildren(trees: seq<Tree>)
    ensures forall m :: m in FlattenAll(SortByDate(trees)) <==> m in FlattenAll(trees)
    ensures Distinct(FlattenAll(trees)) ==> Distinct(FlattenAll(SortByDate(trees)))
  {
    FlattenSorted(trees);
    forall m
      ensures m in FlattenAll(SortByDate(trees)) <==> m in FlattenAll(trees)
    {
      assert m in FlattenAll(trees) <==> m in multiset(FlattenAll(trees));
      assert m in FlattenAll(SortByDate(trees)) <==> m in multiset(FlattenAll(SortByDate(trees)));
    }
    if Distinct(FlattenAll(trees)) {
      PermutationDistinct(FlattenAll(SortByDate(trees)), FlattenAll(trees));
    }
  }

  /** Only nodes that descend from n get into its tree. */
  lemma {:induction false} BuildSound(n: Node, index: map<Option<string>, seq<Node>>, requested: string, isRoot: bool,
      nodes: seq<Node>, path: seq<Node>, m: Node)
    requires Descent(nodes, path, n) && Indexed(index, nodes)
    requires m in Flatten(Build(n, index, requested, isRoot, nodes, path))
    ensures Below(nodes, path, m)
    decreases |nodes| - |path|, 1, 0
  {
    if m == n {
      assert path <= path;
    } else {
      RepliesAre(index, nodes, n);
      var replies := Lookup(index, Some(n.apId));
      FlattenChildren(BuildAll(replies, index, requested, nodes, path));
      var r := BuildAllSound(replies, index, requested, nodes, path, m);
      BelowChild(nodes, path, r, m);
    }
  }

  lemma {:induction false} BuildAllSound(replies: seq<Node>, index: map<Option<string>, seq<Node>>, requested: string,
      nodes: seq<Node>, path: seq<Node>, m: Node)
    returns (r: Node)
    requires path != [] && Descent(nodes, path, path[|path| - 1]) && Indexed(index, nodes)
    requires RepliesOf(replies, nodes, path[|path| - 1])
    requires m in FlattenAll(BuildAll(replies, index, requested, nodes, path))
    ensures r in replies && Below(nodes, path + [r], m)
    decreases |nodes| - |path|, 0, |replies|
  {
    NextDescent(nodes, path, replies[0]);
    if m in Flatten(Build(replies[0], index, requested, false, nodes, path + [replies[0]])) {
      r := replies[0];
      BuildSound(r, index, requested, false, nodes, path + [r], m);
    } else {
      r := BuildAllSound(replies[1..], index, requested, nodes, path, m);
    }
  }

  lemma NextOnPath(nodes: seq<Node>, path: seq<Node>, longer: seq<Node>)
    requires path != [] && Chain(nodes, longer) && path < longer
    ensures var r := longer[|path|];
      r in nodes && r.inReplyTo == Some(path[|path| - 1].apId) && path + [r] <= longer
  {
    var k := |path|;
    assert longer[k - 1] == path[k - 1] && longer[k - 1 + 1].inReplyTo == Some(longer[k - 1].apId);
    assert longer[k] in longer;
    assert path + [longer[k]] == longer[..k + 1];
  }

  /** Every node that descends from n gets into its tree. */
  lemma {:induction false} BuildComplete(n: Node, index: map<Option<string>, seq<Node>>, requested: string,
      isRoot: bool, nodes: seq<Node>, path: seq<Node>, longer: seq<Node>)
    requires Descent(nodes, path, n) && Indexed(index, nodes)
    requires Chain(nodes, longer) && path <= longer
    ensures longer[|longer| - 1] in Flatten(Build(n, index, requested, isRoot, nodes, path))
    decreases |nodes| - |path|, 1, 0
  {
    if |path| < |longer| {
      var replies := Lookup(index, Some(n.apId));
      NextOnPath(nodes, path, longer);
      RepliesAre(index, nodes, n);
      BuildAllComplete(replies, index, requested, nodes, path, longer[|path|], longer);
      FlattenChildren(BuildAll(replies, index, requested, nodes, path));
    }
  }

  lemma {:induction false} BuildAllComplete(replies: seq<Node>, index: map<Option<string>, seq<Node>>,
      requested: string, nodes: seq<Node>, path: seq<Node>, r: Node, longer: seq<Node>)
    requires path != [] && Descent(nodes, path, path[|path| - 1]) && Indexed(index, nodes)
    requires RepliesOf(replies, nodes, path[|path| - 1]) && r in replies
    requires Chain(nodes, longer) && path + [r] <= longer
    ensures longer[|longer| - 1] in FlattenAll(BuildAll(replies, index, requested, nodes, path))
    decreases |nodes| - |path|, 0, |replies|
  {
    NextDescent(nodes, path, replies[0]);
    if r == replies[0] {
      BuildComplete(r, index, requested, false, nodes, path + [r], longer);
    } else {
      BuildAllComplete(replies[1..], index, requested, nodes, path, r, longer);
    }
  }

  /** Two descents that extend the same one by different replies never meet again. */
  lemma BranchesAreDisjoint(nodes: seq<Node>, path: seq<Node>, a: Node, b: Node, m: Node)
    requires path != [] && Descent(nodes, path, path[|path| - 1])
    requires Below(nodes, path + [a], m) && Below(nodes, path + [b], m)
    ensures a == b && m != path[|path| - 1]
  {
    var p :| Chain(nodes, p) && path + [a] <= p && p[|p| - 1] == m;
    var q :| Chain(nodes, q) && path + [b] <= q && q[|q| - 1] == m;
    assert p[0] == path[0] && q[0] == path[0];
    ChainsAreUnique(nodes, path[0], p, q);
    assert p[|path|] == a && q[|path|] == b;
    if m == path[|path| - 1] {
      ChainsAreUnique(nodes, path[0], p, path);
    }
  }

  /** No node appears twice in a tree. */
  lemma {:induction false} BuildDistinct(n: Node, index: map<Option<string>, seq<Node>>, requested: string,
      isRoot: bool, nodes: seq<Node>, path: seq<Node>)
    requires Descent(nodes, path, n) && Indexed(index, nodes)
    ensures Distinct(Flatten(Build(n, index, requested, isRoot, nodes, path)))
    decreases |nodes| - |path|, 1, 0
  {
    var replies := Lookup(index, Some(n.apId));
    RepliesAre(index, nodes, n);
    var trees := BuildAll(replies, index, requested, nodes, path);
    BuildAllDistinct(replies, index, requested, nodes, path);
    FlattenChildren(trees);
    if n in FlattenAll(trees) {
      var r := BuildAllSound(replies, index, requested, nodes, path, n);
      BranchesAreDisjoint(nodes, path, r, r, n);
    }
    DistinctConcat([n], FlattenAll(SortByDate(trees)));
  }

  lemma {:induction false} BuildAllDistinct(replies: seq<Node>, index: map<Option<string>, seq<Node>>,
      requested: string, nodes: seq<Node>, path: seq<Node>)
    requires path != [] && Descent(nodes, path, path[|path| - 1]) && Indexed(index, nodes)
    requires RepliesOf(replies, nodes, path[|path| - 1]) && Distinct(replies)
    ensures Distinct(FlattenAll(BuildAll(replies, index, requested, nodes, path)))
    decreases |nodes| - |path|, 0, |replies|
  {
    if replies != [] {
      var r0 := replies[0];
      NextDescent(nodes, path, r0);
      var first := Flatten(Build(r0, index, requested, false, nodes, path + [r0]));
      var rest := FlattenAll(BuildAll(replies[1..], index, requested, nodes, path));
      BuildDistinct(r0, index, requested, false, nodes, path + [r0]);
      BuildAllDistinct(replies[1..], index, requested, nodes, path);
      forall m | m in first
        ensures m !in rest
      {
        if m in rest {
          BuildSound(r0, index, requested, false, nodes, path + [r0], m);
          var r := BuildAllSound(replies[1..], index, requested, nodes, path, m);
          BranchesAreDisjoint(nodes, path, r0, r, m);
        }
      }
      DistinctConcat(first, rest);
    }
  }

  /** Every edge is a reply, every list of siblings is sorted by date, and the flags are right. */
  ghost predicate WellFormed(t: Tree, requested: string) {
    && t.isRequested == (t.node.apId == requested)
    && SortedByDate(t.children)
    && forall c <- t.children ::
         !c.isRoot && c.node.inReplyTo == Some(t.node.apId) && WellFormed(c, requested)
  }

  lemma {:induction false} BuildWellFormed(n: Node, index: map<Option<string>, seq<Node>>, requested: string,
      isRoot: bool, nodes: seq<Node>, path: seq<Node>)
    requires Descent(nodes, path, n) && Indexed(index, nodes)
    ensures var t := Build(n, index, requested, isRoot, nodes, path);
      t.node == n && t.isRoot == isRoot && WellFormed(t, requested)
    decreases |nodes| - |path|, 1, 0
  {
    var replies := Lookup(index, Some(n.apId));
    RepliesAre(index, nodes, n);
    var trees := BuildAll(replies, index, requested, nodes, path);
    SortIsStable(trees, 0);
    forall c | c in SortByDate(trees)
      ensures !c.isRoot && c.node.inReplyTo == Some(n.apId) && WellFormed(c, requested)
    {
      assert c in multiset(SortByDate(trees));
      BuildAllWellFormed(replies, index, requested, nodes, path, c);
    }
  }

  lemma {:induction false} BuildAllWellFormed(replies: seq<Node>, index: map<Option<string>, seq<Node>>,
      requested: string, nodes: seq<Node>, path: seq<Node>, c: Tree)
    requires path != [] && Descent(nodes, path, path[|path| - 1]) && Indexed(index, nodes)
    requires RepliesOf(replies, nodes, path[|path| - 1])
    requires c in BuildAll(replies, index, requested, nodes, path)
    ensures !c.isRoot && c.node.inReplyTo == Some(path[|path| - 1].apId) && WellFormed(c, requested)
    decreases |nodes| - |path|, 0, |replies|
  {
    NextDescent(nodes, path, replies[0]);
    if c == Build(replies[0], index, requested, false, nodes, path + [replies[0]]) {
      BuildWellFormed(replies[0], index, requested, false, nodes, path + [replies[0]]);
    } else {
      BuildAllWellFormed(replies[1..], index, requested, nodes, path, c);
    }
  }

  // ---------------------------------------------------------------- the recursion and its limit

  datatype Built<T> = Done(result: T) | TooDeep

  /** The recursion as it runs: it nests at most `depth` calls, and raises beyond. */
  function BuildWithin(n: Node, index: map<Option<string>, seq<Node>>, requested: string, isRoot: bool, depth: nat):
      Built<Tree>
    decreases depth, 1, 0
  {
    if depth == 0 then TooDeep
    else
      match BuildAllWithin(Lookup(index, Some(n.apId)), index, requested, depth - 1)
      case TooDeep => TooDeep
      case Done(children) => Done(Tree(n, n.apId == requested, isRoot, SortByDate(children)))
  }

  function BuildAllWithin(replies: seq<Node>, index: map<Option<string>, seq<Node>>, requested: string, depth: nat):
      Built<seq<Tree>>
    decreases depth, 2, |replies|
  {
    if replies == [] then Done([])
    else
      var first := BuildWithin(replies[0], index, requested, false, depth);
      var rest := BuildAllWithin(replies[1..], index, requested, depth);
      if first.Done? && rest.Done? then Done([first.result] + rest.result) else TooDeep
  }

  lemma DescentIsShort(nodes: seq<Node>, path: seq<Node>, n: Node)
    requires Descent(nodes, path, n)
    ensures 0 < |path| <= |nodes| && path[|path| - 1] == n
  {
    ChainIsShort(nodes, path[0], path);
  }

  /** From a root on no cycle the recursion can only build the tree, and does when it may nest one call for
      each node. */
  lemma {:induction false} WithinIsBuild(n: Node, index: map<Option<string>, seq<Node>>, requested: string,
      isRoot: bool, depth: nat, nodes: seq<Node>, path: seq<Node>)
    requires Descent(nodes, path, n) && Indexed(index, nodes)
    ensures var within := BuildWithin(n, index, requested, isRoot, depth);
      && (within.Done? ==> within.result == Build(n, index, requested, isRoot, nodes, path))
      && (depth + |path| > |nodes| ==> within.Done?)
    decreases depth, 1, 0
  {
    hide Indexed, OnCycle, Chain, UniqueIds, SortByDate;
    DescentIsShort(nodes, path, n);
    if depth > 0 {
      RepliesAre(index, nodes, n);
      AllWithinIsBuildAll(Lookup(index, Some(n.apId)), index, requested, depth - 1, nodes, path);
    }
  }

  lemma {:induction false} AllWithinIsBuildAll(replies: seq<Node>, index: map<Option<string>, seq<Node>>,
      requested: string, depth: nat, nodes: seq<Node>, path: seq<Node>)
    requires path != [] && Descent(nodes, path, path[|path| - 1]) && Indexed(index, nodes)
    requires RepliesOf(replies, nodes, path[|path| - 1])
    ensures var within := BuildAllWithin(replies, index, requested, depth);
      && (within.Done? ==> within.result == BuildAll(replies, index, requested, nodes, path))
      && (depth + |path| + 1 > |nodes| ==> within.Done?)
    decreases depth, 2, |replies|
  {
    hide Indexed, OnCycle, Chain, UniqueIds;
    if replies != [] {
      NextDescent(nodes, path, replies[0]);
      WithinIsBuild(replies[0], index, requested, false, depth, nodes, path + [replies[0]]);
      AllWithinIsBuildAll(replies[1..], index, requested, depth, nodes, path);
    }
  }

  /** The next node round a cycle is a reply, and is on it too. */
  lemma NextRoundTheCycle(nodes: seq<Node>, n: Node) returns (next: Node)
    requires OnCycle(nodes, n)
    ensures next in nodes && next.inReplyTo == Some(n.apId) && OnCycle(nodes, next)
  {
    var loop: seq<Node> :| ChainTo(nodes, loop, n, n) && |loop| > 1;
    next := loop[1];
    assert loop[0 + 1].inReplyTo == Some(loop[0].apId);
    var round := loop[1..] + [next];
    forall i | 0 <= i < |round| - 1
      ensures round[i + 1].inReplyTo == Some(round[i].apId)
    {
      if i < |loop| - 2 {
        assert loop[i + 1 + 1].inReplyTo == Some(loop[i + 1].apId);
      }
    }
    assert ChainTo(nodes, round, next, next);
  }

  lemma {:induction false} OneTooDeep(replies: seq<Node>, index: map<Option<string>, seq<Node>>, requested: string,
      depth: nat, n: Node)
    requires n in replies && BuildWithin(n, index, requested, false, depth).TooDeep?
    ensures BuildAllWithin(replies, index, requested, depth).TooDeep?
  {
    if n != replies[0] {
      OneTooDeep(replies[1..], index, requested, depth, n);
    }
  }

  /** From a node on a cycle the recursion runs into every limit. */
  lemma {:induction false} CycleIsTooDeep(nodes: seq<Node>, index: map<Option<string>, seq<Node>>, requested: string,
      n: Node, isRoot: bool, depth: nat)
    requires Indexed(index, nodes) && OnCycle(nodes, n)
    ensures BuildWithin(n, index, requested, isRoot, depth).TooDeep?
    decreases depth
  {
    hide OnCycle, Indexed, Lookup;
    if depth > 0 {
      var next := NextRoundTheCycle(nodes, n);
      RepliesAre(index, nodes, n);
      CycleIsTooDeep(nodes, index, requested, next, false, depth - 1);
      OneTooDeep(Lookup(index, Some(n.apId)), index, requested, depth - 1, next);
    }
  }

  /** A reply chain of that many nodes starts at the node. */
  ghost predicate HasDescent(nodes: seq<Node>, n: Node, length: nat) {
    exists path :: DescentOf(nodes, n, length, path)
  }

  ghost predicate DescentOf(nodes: seq<Node>, n: Node, length: nat, path: seq<Node>) {
    Chain(nodes, path) && path[0] == n && |path| == length
  }

  lemma AloneIsDescent(nodes: seq<Node>, n: Node)
    requires n in nodes
    ensures HasDescent(nodes, n, 1)
  {
    assert DescentOf(nodes, n, 1, [n]);
  }

  lemma LongerDescent(nodes: seq<Node>, n: Node, r: Node, length: nat)
    requires n in nodes && r in nodes && r.inReplyTo == Some(n.apId) && HasDescent(nodes, r, length)
    ensures HasDescent(nodes, n, length + 1)
  {
    var path: seq<Node> :| DescentOf(nodes, r, length, path);
    var longer := [n] + path;
    forall i | 0 <= i < |longer| - 1
      ensures longer[i + 1].inReplyTo == Some(longer[i].apId)
    {
      if i > 0 {
        assert path[i - 1 + 1].inReplyTo == Some(path[i - 1].apId);
      }
    }
    assert DescentOf(nodes, n, length + 1, longer);
  }

  lemma ShorterDescent(nodes: seq<Node>, n: Node, length: nat) returns (r: Node)
    requires length > 0 && HasDescent(nodes, n, length + 1)
    ensures r in nodes && r.inReplyTo == Some(n.apId) && HasDescent(nodes, r, length)
  {
    var path: seq<Node> :| DescentOf(nodes, n, length + 1, path);
    r := path[1];
    assert path[0 + 1].inReplyTo == Some(path[0].apId);
    var rest := path[1..];
    forall i | 0 <= i < |rest| - 1
      ensures rest[i + 1].inReplyTo == Some(rest[i].apId)
    {
      assert path[i + 1 + 1].inReplyTo == Some(path[i + 1].apId);
    }
    assert DescentOf(nodes, r, length, rest);
  }

  lemma {:induction false} SomeReplyTooDeep(replies: seq<Node>, index: map<Option<string>, seq<Node>>,
      requested: string, depth: nat) returns (r: Node)
    requires BuildAllWithin(replies, index, requested, depth).TooDeep?
    ensures r in replies && BuildWithin(r, index, requested, false, depth).TooDeep?
  {
    if BuildWithin(replies[0], index, requested, false, depth).TooDeep? {
      r := replies[0];
    } else {
      r := SomeReplyTooDeep(replies[1..], index, requested, depth);
    }
  }

  /** Whatever the replies look like, the recursion runs into its limit exactly when a reply chain from the
      node has more nodes than the calls it may nest. */
  lemma {:induction false} TooDeepIff(nodes: seq<Node>, index: map<Option<string>, seq<Node>>, requested: string,
      n: Node, isRoot: bool, depth: nat)
    requires Indexed(index, nodes) && n in nodes
    ensures BuildWithin(n, index, requested, isRoot, depth).TooDeep? <==> HasDescent(nodes, n, depth + 1)
    decreases depth
  {
    hide HasDescent, Indexed;
    if depth == 0 {
      AloneIsDescent(nodes, n);
    } else {
      var replies := Lookup(index, Some(n.apId));
      RepliesAre(index, nodes, n);
      if BuildWithin(n, index, requested, isRoot, depth).TooDeep? {
        var r := SomeReplyTooDeep(replies, index, requested, depth - 1);
        TooDeepIff(nodes, index, requested, r, false, depth - 1);
        LongerDescent(nodes, n, r, depth);
      }
      if HasDescent(nodes, n, depth + 1) {
        var r := ShorterDescent(nodes, n, depth);
        TooDeepIff(nodes, index, requested, r, false, depth - 1);
        OneTooDeep(replies, index, requested, depth - 1, r);
      }
    }
  }

  /** The recursion runs into every limit exactly when the root is on a reply cycle. */
  lemma NeverEndsIffOnCycle(nodes: seq<Node>, index: map<Option<string>, seq<Node>>, requested: string, root: Node)
    requires UniqueIds(nodes) && Indexed(index, nodes) && root in nodes
    ensures (forall depth: nat :: BuildWithin(root, index, requested, true, depth).TooDeep?) <==> OnCycle(nodes, root)
  {
    if OnCycle(nodes, root) {
      forall depth: nat
        ensures BuildWithin(root, index, requested, true, depth).TooDeep?
      {
        CycleIsTooDeep(nodes, index, requested, root, true, depth);
      }
    } else {
      WithinIsBuild(root, index, requested, true, |nodes|, nodes, [root]);
      assert BuildWithin(root, index, requested, true, |nodes|).Done?;
    }
  }

  lemma TreeIsReachability(nodes: seq<Node>, index: map<Option<string>, seq<Node>>, requested: string, root: Node)
    requires UniqueIds(nodes) && Indexed(index, nodes) && root in nodes && !OnCycle(nodes, root)
    ensures forall m ::
      m in Flatten(Build(root, index, requested, true, nodes, [root])) <==> Reaches(nodes, root, m)
  {
    forall m
      ensures m in Flatten(Build(root, index, requested, true, nodes, [root])) <==> Reaches(nodes, root, m)
    {
      if m in Flatten(Build(root, index, requested, true, nodes, [root])) {
        BuildSound(root, index, requested, true, nodes, [root], m);
        var longer :| Chain(nodes, longer) && [root] <= longer && longer[|longer| - 1] == m;
        assert ChainTo(nodes, longer, root, m);
      }
      if path: seq<Node> :| ChainTo(nodes, path, root, m) {
        assert [root] <= path;
        BuildComplete(root, index, requested, true, nodes, [root], path);
      }
    }
  }

  // ---------------------------------------------------------------- the whole tree

  datatype Outcome = Ok(tree: Tree) | InvalidRepliesTree | NoNodes | RecursionLimit

  /** The first of the earliest published nodes. */
  function Earliest(nodes: seq<Node>): (n: Node)
    requires nodes != []
    ensures n in nodes && forall m <- nodes :: n.publishedAt <= m.publishedAt
  {
    var last := |nodes| - 1;
    if last == 0 then nodes[0] else
      assert nodes == nodes[..last] + [nodes[last]];
      var n := Earliest(nodes[..last]);
      if nodes[last].publishedAt < n.publishedAt then nodes[last] else n
  }

  /** The node a conversation's tree starts from: one that replies to nothing if there is any, else the one that
      was published first, and of several from the same instant the first in the list. */
  ghost predicate IsRoot(nodes: seq<Node>, root: Node) {
    && root in nodes
    && if exists n :: n in nodes && n.inReplyTo == None
       then root.inReplyTo == None
       else exists k :: 0 <= k < |nodes| && nodes[k] == root && IsEarliest(nodes, k)
  }

  predicate IsEarliest(nodes: seq<Node>, k: nat)
    requires k < |nodes|
  {
    && (forall i :: 0 <= i < |nodes| ==> nodes[k].publishedAt <= nodes[i].publishedAt)
    && (forall i :: 0 <= i < k ==> nodes[k].publishedAt < nodes[i].publishedAt)
  }

  /** With at most one node that replies to nothing, there is only one such root. */
  lemma OneRoot(nodes: seq<Node>, a: Node, b: Node)
    requires |Filter(RepliesTo(None), nodes)| <= 1 && IsRoot(nodes, a) && IsRoot(nodes, b)
    ensures a == b
  {
    FilterMembers(RepliesTo(None), nodes);
    if n :| n in nodes && n.inReplyTo == None {
      assert a in Filter(RepliesTo(None), nodes) && b in Filter(RepliesTo(None), nodes);
    } else {
      var j, k :| 0 <= j < |nodes| && nodes[j] == a && IsEarliest(nodes, j)
               && 0 <= k < |nodes| && nodes[k] == b && IsEarliest(nodes, k);
    }
  }

  lemma {:induction false} EarliestIsFirst(nodes: seq<Node>)
    requires nodes != []
    ensures exists k :: 0 <= k < |nodes| && nodes[k] == Earliest(nodes) && IsEarliest(nodes, k)
  {
    hide IsEarliest;
    var last := |nodes| - 1;
    if last == 0 {
      OneIsEarliest(nodes);
    } else {
      EarliestIsFirst(nodes[..last]);
      var k :| 0 <= k < last && nodes[..last][k] == Earliest(nodes[..last]) && IsEarliest(nodes[..last], k);
      OneMoreNode(nodes, k);
      assert nodes[if nodes[last].publishedAt < nodes[k].publishedAt then last else k] == Earliest(nodes);
    }
  }

  lemma OneIsEarliest(nodes: seq<Node>)
    requires |nodes| == 1
    ensures IsEarliest(nodes, 0)
  {
  }

  lemma OneMoreNode(nodes: seq<Node>, k: nat)
    requires k < |nodes| - 1 && IsEarliest(nodes[..|nodes| - 1], k)
    ensures var last := |nodes| - 1;
      IsEarliest(nodes, if nodes[last].publishedAt < nodes[k].publishedAt then last else k)
  {
    var last := |nodes| - 1;
    assert forall i :: 0 <= i < last ==> nodes[..last][i] == nodes[i];
  }

  /** The conversation's tree, built by a recursion that may nest `limit` calls. A root on a reply cycle, which
      is possible only when no node is parentless, runs into the limit; one on no cycle does so only when
      there are more nodes than that. */
  method GetRepliesTree(nodes: seq<Node>, requested: string, limit: nat) returns (outcome: Outcome)
    requires UniqueIds(nodes)
    ensures outcome.InvalidRepliesTree? <==> |Filter(RepliesTo(None), nodes)| > 1
    ensures outcome.NoNodes? <==> nodes == []
    ensures outcome.RecursionLimit? <==>
      && |Filter(RepliesTo(None), nodes)| <= 1
      && exists root :: IsRoot(nodes, root) && HasDescent(nodes, root, limit + 1)
    ensures outcome.RecursionLimit? ==> |nodes| > limit || exists root :: IsRoot(nodes, root) && OnCycle(nodes, root)
    ensures outcome.Ok? ==>
      && var root := outcome.tree.node;
      && IsRoot(nodes, root) && outcome.tree.isRoot
      && !OnCycle(nodes, root)
      && WellFormed(outcome.tree, requested)
      && Distinct(Flatten(outcome.tree))
      && forall m :: m in Flatten(outcome.tree) <==> Reaches(nodes, root, m)
  {
    var index := IndexReplies(nodes);
    var parentless := Lookup(index, None);
    if |parentless| > 1 {
      return InvalidRepliesTree;
    }
    if nodes == [] {
      return NoNodes;
    }
    FilterMembers(RepliesTo(None), nodes);
    var root := if parentless == [] then Earliest(nodes) else parentless[0];
    EarliestIsFirst(nodes);
    assert IsRoot(nodes, root) by {
      assert parentless != [] ==> root in parentless;
    }
    forall other | IsRoot(nodes, other)
      ensures other == root
    {
      OneRoot(nodes, other, root);
    }
    var built := BuildWithin(root, index, requested, true, limit);
    RootIsBuilt(nodes, index, requested, root, limit);
    TooDeepIff(nodes, index, requested, root, true, limit);
    if built.TooDeep? {
      return RecursionLimit;
    }
    return Ok(built.result);
  }

  lemma RootIsBuilt(nodes: seq<Node>, index: map<Option<string>, seq<Node>>, requested: string, root: Node, limit: nat)
    requires UniqueIds(nodes) && Indexed(index, nodes) && root in nodes
    ensures var built := BuildWithin(root, index, requested, true, limit);
      && (built.TooDeep? ==> OnCycle(nodes, root) || |nodes| > limit)
      && (built.Done? ==>
            && !OnCycle(nodes, root)
            && built.result.node == root && built.result.isRoot
            && WellFormed(built.result, requested)
            && Distinct(Flatten(built.result))
            && forall m :: m in Flatten(built.result) <==> Reaches(nodes, root, m))
  {
    if OnCycle(nodes, root) {
      CycleIsTooDeep(nodes, index, requested, root, true, limit);
    } else {
      WithinIsBuild(root, index, requested, true, limit, nodes, [root]);
      BuildWellFormed(root, index, requested, true, nodes, [root]);
      BuildDistinct(root, index, requested, true, nodes, [root]);
      TreeIsReachability(nodes, index, requested, root);
    }
  }

  /** With exactly one parentless node the recursion always ends, even when other nodes form cycles. */
  lemma OneParentlessNode(nodes: seq<Node>, root: Node)
    requires |Filter(RepliesTo(None), nodes)| == 1 && IsRoot(nodes, root)
    ensures !OnCycle(nodes, root)
  {
    var n := Filter(RepliesTo(None), nodes)[0];
    FilterMembers(RepliesTo(None), nodes);
    assert n in Filter(RepliesTo(None), nodes);
    ParentlessIsNotOnCycle(nodes, root);
  }
}
