/** The derived views of the outline store (src/stores/domain/outlineStore.ts): the nested tree
    `treeData`, the per-type lists and the word-count total, as functions of the flat `nodes` list.

    `buildTree(parentId, level)` keeps the nodes whose `parentId` is `parentId`, sorts them by
    `order` (JavaScript's sort is stable) and gives each one `level` and the children
    `buildTree(node.id, level + 1)`. It terminates when ids are unique: a node reached at depth d
    sits at the end of a chain of d + 1 distinct nodes that starts at a node with a null parent, so
    d < |nodes|. BuildTree carries that chain as a ghost parameter. */
module OutlineTree {
  import opened Wrappers
  import opened Types
  import Lists

  /** An entry of the nested view: the node's own fields, its depth and its children. */
  datatype TreeNode = TreeNode(node: OutlineNode, level: nat, children: seq<TreeNode>)

  /** No two entries of the list share an id. */
  ghost predicate UniqueIds(nodes: seq<OutlineNode>) {
    forall i, j :: 0 <= i < |nodes| && 0 <= j < |nodes| && nodes[i].id == nodes[j].id ==> i == j
  }

  predicate InRange(nodes: seq<OutlineNode>, s: seq<nat>) {
    forall t :: 0 <= t < |s| ==> s[t] < |nodes|
  }

  predicate Increasing(s: seq<nat>) {
    forall a, b :: 0 <= a < b < |s| ==> s[a] < s[b]
  }

  // ---------------- Children of one parent, stably sorted ----------------

  /** The positions, from `from` on, of the nodes whose parent is `parent` (`n.parentId === parentId`
      on stored values), in list order. */
  function ChildIndices(nodes: seq<OutlineNode>, parent: Option<Id>, from: nat): (r: seq<nat>)
    requires from <= |nodes|
    ensures InRange(nodes, r) && Increasing(r)
    ensures forall t :: 0 <= t < |r| ==> from <= r[t]
    ensures forall i: nat :: i in r <==> from <= i < |nodes| && nodes[i].parentId == parent
    decreases |nodes| - from
  {
    if from == |nodes| then []
    else
      var rest := ChildIndices(nodes, parent, from + 1);
      (if nodes[from].parentId == parent then [from] else []) + rest
  }

  /** Node `i` sorts before node `j`: a smaller `order`, or the same `order` and an earlier place in
      the list (the comparator `a.order - b.order` under a stable sort). */
  predicate Before(nodes: seq<OutlineNode>, i: nat, j: nat)
    requires i < |nodes| && j < |nodes|
  {
    nodes[i].order < nodes[j].order || (nodes[i].order == nodes[j].order && i < j)
  }

  predicate SortedByOrder(nodes: seq<OutlineNode>, s: seq<nat>)
    requires InRange(nodes, s)
  {
    forall a, b :: 0 <= a < b < |s| ==> Before(nodes, s[a], s[b])
  }

  /** Inserts position `x`, which precedes every position of `t` in the list, into the sorted `t`. */
  function Insert(nodes: seq<OutlineNode>, x: nat, t: seq<nat>): (r: seq<nat>)
    requires x < |nodes| && InRange(nodes, t) && SortedByOrder(nodes, t)
    requires forall b :: 0 <= b < |t| ==> x < t[b]
    ensures InRange(nodes, r) && SortedByOrder(nodes, r)
    ensures forall b :: 0 <= b < |r| ==> r[b] == x || r[b] in t
    ensures multiset(r) == multiset(t) + multiset{x}
  {
    if t == [] || nodes[x].order <= nodes[t[0]].order then
      FrontBefore(nodes, x, t);
      SortedCons(nodes, x, t);
      [x] + t
    else
      SortedTail(nodes, x, t);
      var rest := Insert(nodes, x, t[1..]);
      assert t == [t[0]] + t[1..];
      LaterBefore(nodes, x, t, rest);
      SortedCons(nodes, t[0], rest);
      [t[0]] + rest
  }

  lemma SortedCons(nodes: seq<OutlineNode>, y: nat, s: seq<nat>)
    requires y < |nodes| && InRange(nodes, s) && SortedByOrder(nodes, s)
    requires forall b :: 0 <= b < |s| ==> Before(nodes, y, s[b])
    ensures InRange(nodes, [y] + s) && SortedByOrder(nodes, [y] + s)
  {
    var r := [y] + s;
    assert forall b :: 0 < b < |r| ==> r[b] == s[b - 1];
  }

  /** The tail of a sorted list is sorted, and still follows `x`. */
  lemma SortedTail(nodes: seq<OutlineNode>, x: nat, t: seq<nat>)
    requires InRange(nodes, t) && SortedByOrder(nodes, t) && t != []
    requires forall b :: 0 <= b < |t| ==> x < t[b]
    ensures InRange(nodes, t[1..]) && SortedByOrder(nodes, t[1..])
    ensures forall b :: 0 <= b < |t[1..]| ==> x < t[1..][b]
  {
    assert forall b :: 0 <= b < |t| - 1 ==> t[1..][b] == t[b + 1];
  }

  lemma FrontBefore(nodes: seq<OutlineNode>, x: nat, t: seq<nat>)
    requires x < |nodes| && InRange(nodes, t) && SortedByOrder(nodes, t)
    requires forall b :: 0 <= b < |t| ==> x < t[b]
    requires t == [] || nodes[x].order <= nodes[t[0]].order
    ensures forall b :: 0 <= b < |t| ==> Before(nodes, x, t[b])
  {
    forall b | 0 < b < |t| ensures nodes[t[0]].order <= nodes[t[b]].order {
      assert Before(nodes, t[0], t[b]);
    }
  }

  lemma LaterBefore(nodes: seq<OutlineNode>, x: nat, t: seq<nat>, rest: seq<nat>)
    requires x < |nodes| && InRange(nodes, t) && SortedByOrder(nodes, t) && t != []
    requires nodes[t[0]].order < nodes[x].order
    requires forall b :: 0 <= b < |rest| ==> rest[b] == x || rest[b] in t[1..]
    ensures forall b :: 0 <= b < |rest| ==> Before(nodes, t[0], rest[b])
  {
    forall b | 0 <= b < |rest| ensures Before(nodes, t[0], rest[b]) {
      if rest[b] != x {
        var c :| 0 <= c < |t| - 1 && t[1..][c] == rest[b];
        assert t[c + 1] == rest[b];
      }
    }
  }

  /** A stable sort by `order` of the increasing positions `s`: the result is the permutation of
      `s` that is sorted by `order` and, among equal orders, by position. */
  function SortByOrder(nodes: seq<OutlineNode>, s: seq<nat>): (r: seq<nat>)
    requires InRange(nodes, s) && Increasing(s)
    ensures InRange(nodes, r) && SortedByOrder(nodes, r)
    ensures multiset(r) == multiset(s)
  {
    if s == [] then []
    else
      var rest := SortByOrder(nodes, s[1..]);
      FirstPrecedes(s, rest);
      assert s == [s[0]] + s[1..];
      Insert(nodes, s[0], rest)
  }

  /** The first of increasing positions precedes every element of a permutation of the rest. */
  lemma FirstPrecedes(s: seq<nat>, rest: seq<nat>)
    requires Increasing(s) && s != [] && multiset(rest) == multiset(s[1..])
    ensures forall b :: 0 <= b < |rest| ==> s[0] < rest[b]
  {
    forall b | 0 <= b < |rest| ensures s[0] < rest[b] {
      assert rest[b] in multiset(rest);
      var c :| 0 <= c < |s| - 1 && s[1..][c] == rest[b];
      assert s[c + 1] == rest[b];
    }
  }

  /** The children of `parent`, in the order `buildTree` lists them: exactly the nodes whose parent
      is `parent`, each once, ascending by `order` and stable on ties. */
  function Kids(nodes: seq<OutlineNode>, parent: Option<Id>): (r: seq<nat>)
    ensures InRange(nodes, r) && SortedByOrder(nodes, r)
    ensures forall i: nat :: i in r <==> i < |nodes| && nodes[i].parentId == parent
    ensures AllUnder(nodes, r, parent)
  {
    var c := ChildIndices(nodes, parent, 0);
    var r := SortByOrder(nodes, c);
    assert forall i: nat :: i in r <==> i in c by {
      forall i: nat ensures i in r <==> i in c {
        assert i in r <==> i in multiset(r);
        assert i in c <==> i in multiset(c);
      }
    }
    assert forall t :: 0 <= t < |r| ==> r[t] in r;
    r
  }

  /** Every position of `kids` is a node whose parent is `parent`. */
  predicate AllUnder(nodes: seq<OutlineNode>, kids: seq<nat>, parent: Option<Id>) {
    forall t :: 0 <= t < |kids| ==> kids[t] < |nodes| && nodes[kids[t]].parentId == parent
  }

  lemma AllUnderTail(nodes: seq<OutlineNode>, kids: seq<nat>, parent: Option<Id>)
    requires AllUnder(nodes, kids, parent) && kids != []
    ensures kids[0] < |nodes| && nodes[kids[0]].parentId == parent
    ensures AllUnder(nodes, kids[1..], parent)
  {
    assert forall t :: 0 <= t < |kids| - 1 ==> kids[1..][t] == kids[t + 1];
  }

  // ---------------- Chains of parent links ----------------

  /** `q` lists positions of a chain of parent links that starts at a node with a null parent:
      each node's parent is the node before it. */
  ghost predicate IsRootPath(nodes: seq<OutlineNode>, q: seq<nat>) {
    && InRange(nodes, q)
    && (q != [] ==> nodes[q[0]].parentId == None)
    && (forall t :: 0 < t < |q| ==> nodes[q[t]].parentId == Some(nodes[q[t - 1]].id))
  }

  /** The parent id under which the children of the chain `path` sit: null for the empty chain. */
  function ParentOf(nodes: seq<OutlineNode>, path: seq<nat>): Option<Id>
    requires InRange(nodes, path)
  {
    if path == [] then None else Some(nodes[path[|path| - 1]].id)
  }

  function Tip(q: seq<nat>): nat
    requires q != []
  {
    q[|q| - 1]
  }

  /** Node `i` is reached by following parent links down from a node with a null parent. */
  ghost predicate HasRootChain(nodes: seq<OutlineNode>, i: nat) {
    exists q :: IsRootPath(nodes, q) && q != [] && Tip(q) == i
  }

  /** With unique ids a chain never repeats a node: two equal positions `d` apart would force the
      positions before them to be equal too, down to the chain's start, whose parent is null. */
  lemma {:induction false} RootPathNoRepeat(nodes: seq<OutlineNode>, q: seq<nat>, a: nat, d: nat)
    requires UniqueIds(nodes) && IsRootPath(nodes, q)
    requires 0 < d && a + d < |q|
    ensures q[a] != q[a + d]
    decreases a
  {
    if a > 0 {
      RootPathNoRepeat(nodes, q, a - 1, d);
      assert nodes[q[a - 1]].id != nodes[q[a - 1 + d]].id;
      assert nodes[q[a]].parentId == Some(nodes[q[a - 1]].id);
      assert nodes[q[a + d]].parentId == Some(nodes[q[a + d - 1]].id);
    } else {
      assert nodes[q[d]].parentId == Some(nodes[q[d - 1]].id);
    }
  }

  /** Distinct positions below `n` number at most `n`. */
  lemma {:induction false} DistinctBounded(q: seq<nat>, n: nat)
    requires forall t :: 0 <= t < |q| ==> q[t] < n
    requires Lists.Distinct(q)
    ensures |q| <= n
    decreases |q|
  {
    if q != [] {
      var last := q[|q| - 1];
      // move the value n - 1 (if some earlier element has it) onto the value of the last element
      var p := seq(|q| - 1, t requires 0 <= t < |q| - 1 => if q[t] == n - 1 then last else q[t]);
      forall t | 0 <= t < |p| ensures p[t] < n - 1 {
        if q[t] == n - 1 {
          assert last != n - 1;
        }
      }
      DistinctBounded(p, n - 1);
    }
  }

  /** A chain is never longer than the list. */
  lemma RootPathBounded(nodes: seq<OutlineNode>, q: seq<nat>)
    requires UniqueIds(nodes) && IsRootPath(nodes, q)
    ensures Lists.Distinct(q) && |q| <= |nodes|
  {
    forall a, b | 0 <= a < b < |q| ensures q[a] != q[b] {
      RootPathNoRepeat(nodes, q, a, b - a);
    }
    DistinctBounded(q, |nodes|);
  }

  /** A child of the end of a chain extends it, and the longer chain still fits in the list. */
  lemma ExtendRootPath(nodes: seq<OutlineNode>, path: seq<nat>, k: nat)
    requires UniqueIds(nodes) && IsRootPath(nodes, path)
    requires k < |nodes| && nodes[k].parentId == ParentOf(nodes, path)
    ensures IsRootPath(nodes, path + [k]) && |path| < |nodes|
  {
    var q := path + [k];
    assert forall t :: 0 <= t < |path| ==> q[t] == path[t];
    RootPathBounded(nodes, q);
  }

  /** With unique ids a node has at most one chain: the chain is determined by its last node. */
  lemma {:induction false} RootPathUnique(nodes: seq<OutlineNode>, q1: seq<nat>, q2: seq<nat>)
    requires UniqueIds(nodes) && IsRootPath(nodes, q1) && IsRootPath(nodes, q2)
    requires q1 != [] && q2 != [] && Tip(q1) == Tip(q2)
    ensures q1 == q2
    decreases |q1|
  {
    var n1, n2 := |q1|, |q2|;
    assert nodes[q1[n1 - 1]].parentId == (if n1 == 1 then None else Some(nodes[q1[n1 - 2]].id));
    assert nodes[q2[n2 - 1]].parentId == (if n2 == 1 then None else Some(nodes[q2[n2 - 2]].id));
    if n1 > 1 && n2 > 1 {
      assert nodes[q1[n1 - 2]].id == nodes[q2[n2 - 2]].id;
      var p1, p2 := q1[..n1 - 1], q2[..n2 - 1];
      PrefixRootPath(nodes, q1, n1 - 1);
      PrefixRootPath(nodes, q2, n2 - 1);
      RootPathUnique(nodes, p1, p2);
      assert q1 == p1 + [Tip(q1)] && q2 == p2 + [Tip(q2)];
    } else {
      assert n1 == 1 && n2 == 1;
      assert q1 == [Tip(q1)] && q2 == [Tip(q2)];
    }
  }

  /** A prefix of a chain is a chain. */
  lemma PrefixRootPath(nodes: seq<OutlineNode>, q: seq<nat>, k: nat)
    requires IsRootPath(nodes, q) && k <= |q|
    ensures IsRootPath(nodes, q[..k])
  {
    assert forall t :: 0 <= t < k ==> q[..k][t] == q[t];
  }

  // ---------------- buildTree ----------------

  /** The entries of `forest` (the view of `parent`'s children at depth `level`): every node whose
      parent is `parent` appears among them, and only those; each is tagged `level`; they are in
      ascending `order`; and the same holds of each entry's children, one level down. */
  ghost predicate Exact(nodes: seq<OutlineNode>, forest: seq<TreeNode>, parent: Option<Id>, level: nat)
  {
    && (forall i :: 0 <= i < |nodes| ==> (nodes[i].parentId == parent <==> nodes[i] in Nodes(forest)))
    && (forall e :: e in forest ==> e.node.parentId == parent && e.level == level)
    && (forall a, b :: 0 <= a < b < |forest| ==> forest[a].node.order <= forest[b].node.order)
    && (forall e :: e in forest ==> Exact(nodes, e.children, Some(e.node.id), level + 1))
  }

  /** The nodes of the top-level entries of `forest`. */
  function Nodes(forest: seq<TreeNode>): seq<OutlineNode> {
    seq(|forest|, t requires 0 <= t < |forest| => forest[t].node)
  }

  /** `buildTree(parent, level)`, entered along the chain `path` whose end is `parent`. */
  function BuildTree(nodes: seq<OutlineNode>, parent: Option<Id>, level: nat, ghost path: seq<nat>): (r: seq<TreeNode>)
    requires UniqueIds(nodes) && IsRootPath(nodes, path)
    requires level == |path| && parent == ParentOf(nodes, path)
    ensures |r| == |Kids(nodes, parent)|
    ensures forall t :: 0 <= t < |r| ==> r[t].node == nodes[Kids(nodes, parent)[t]]
    ensures Exact(nodes, r, parent, level)
    decreases |nodes| - level, 1, 0
  {
    RootPathBounded(nodes, path);
    var kids := Kids(nodes, parent);
    var r := BuildEntries(nodes, parent, level, path, kids);
    ExactOfKids(nodes, r, parent, level, kids);
    r
  }

  /** Entries built in `Kids` order for `parent` form an exact view of `parent`'s children. */
  lemma ExactOfKids(nodes: seq<OutlineNode>, r: seq<TreeNode>, parent: Option<Id>, level: nat, kids: seq<nat>)
    requires kids == Kids(nodes, parent)
    requires |r| == |kids|
    requires forall t :: 0 <= t < |r| ==> r[t].node == nodes[kids[t]] && r[t].level == level
    requires forall t :: 0 <= t < |r| ==> Exact(nodes, r[t].children, Some(r[t].node.id), level + 1)
    ensures Exact(nodes, r, parent, level)
  {
    EntriesOfParent(nodes, r, parent, level, kids);
    EntriesCoverParent(nodes, r, parent, kids);
    EntriesOrdered(nodes, r, kids);
    EntriesChildren(nodes, r, level);
  }

  /** Each entry sits under `parent` at depth `level`. */
  lemma EntriesOfParent(nodes: seq<OutlineNode>, r: seq<TreeNode>, parent: Option<Id>, level: nat, kids: seq<nat>)
    requires InRange(nodes, kids) && forall i: nat :: i in kids ==> nodes[i].parentId == parent
    requires |r| == |kids|
    requires forall t :: 0 <= t < |r| ==> r[t].node == nodes[kids[t]] && r[t].level == level
    ensures forall e :: e in r ==> e.node.parentId == parent && e.level == level
  {
    forall e | e in r ensures e.node.parentId == parent && e.level == level {
      var t :| 0 <= t < |r| && r[t] == e;
      assert kids[t] in kids;
    }
  }

  /** The entries' nodes are exactly the nodes under `parent`. */
  lemma EntriesCoverParent(nodes: seq<OutlineNode>, r: seq<TreeNode>, parent: Option<Id>, kids: seq<nat>)
    requires InRange(nodes, kids)
    requires forall i: nat :: i in kids <==> i < |nodes| && nodes[i].parentId == parent
    requires |r| == |kids|
    requires forall t :: 0 <= t < |r| ==> r[t].node == nodes[kids[t]]
    ensures forall i :: 0 <= i < |nodes| ==> (nodes[i].parentId == parent <==> nodes[i] in Nodes(r))
  {
    forall i | 0 <= i < |nodes| ensures nodes[i].parentId == parent <==> nodes[i] in Nodes(r) {
      if nodes[i].parentId == parent {
        assert i in kids;
        var t :| 0 <= t < |kids| && kids[t] == i;
        assert Nodes(r)[t] == nodes[i];
      }
      if nodes[i] in Nodes(r) {
        var t :| 0 <= t < |r| && Nodes(r)[t] == nodes[i];
        assert kids[t] in kids;
      }
    }
  }

  /** Entries in `Kids` order ascend by `order`. */
  lemma EntriesOrdered(nodes: seq<OutlineNode>, r: seq<TreeNode>, kids: seq<nat>)
    requires InRange(nodes, kids) && SortedByOrder(nodes, kids)
    requires |r| == |kids|
    requires forall t :: 0 <= t < |r| ==> r[t].node == nodes[kids[t]]
    ensures forall a, b :: 0 <= a < b < |r| ==> r[a].node.order <= r[b].node.order
  {
    forall a, b | 0 <= a < b < |r| ensures r[a].node.order <= r[b].node.order {
      assert Before(nodes, kids[a], kids[b]);
    }
  }

  /** The children of every entry are exact one level down. */
  lemma EntriesChildren(nodes: seq<OutlineNode>, r: seq<TreeNode>, level: nat)
    requires forall t :: 0 <= t < |r| ==> Exact(nodes, r[t].children, Some(r[t].node.id), level + 1)
    ensures forall e :: e in r ==> Exact(nodes, e.children, Some(e.node.id), level + 1)
  {
    forall e | e in r ensures Exact(nodes, e.children, Some(e.node.id), level + 1) {
      var t :| 0 <= t < |r| && r[t] == e;
    }
  }

  /** The entries for the children `kids` of `parent`, in turn. */
  function BuildEntries(nodes: seq<OutlineNode>, parent: Option<Id>, level: nat, ghost path: seq<nat>, kids: seq<nat>): (r: seq<TreeNode>)
    requires UniqueIds(nodes) && IsRootPath(nodes, path)
    requires level == |path| && parent == ParentOf(nodes, path)
    requires AllUnder(nodes, kids, parent)
    ensures |r| == |kids|
    ensures forall t :: 0 <= t < |r| ==> r[t].node == nodes[kids[t]] && r[t].level == level
    ensures forall t :: 0 <= t < |r| ==> Exact(nodes, r[t].children, Some(r[t].node.id), level + 1)
    decreases |nodes| - level, 0, |kids|
  {
    if kids == [] then []
    else
      var k := kids[0];
      AllUnderTail(nodes, kids, parent);
      ExtendRootPath(nodes, path, k);
      var e := TreeNode(nodes[k], level, BuildTree(nodes, Some(nodes[k].id), level + 1, path + [k]));
      var rest := BuildEntries(nodes, parent, level, path, kids[1..]);
      var r := [e] + rest;
      assert forall t :: 0 < t < |r| ==> r[t] == rest[t - 1];
      r
  }

  /** `treeData`: the nested view from the nodes with a null parent, at level 0. */
  function TreeData(nodes: seq<OutlineNode>): (r: seq<TreeNode>)
    requires UniqueIds(nodes)
    ensures Exact(nodes, r, None, 0)
  {
    BuildTree(nodes, None, 0, [])
  }

  /** All entries of a nested view, parents before their children. */
  function Flatten(forest: seq<TreeNode>): seq<OutlineNode>
    decreases forest
  {
    if forest == [] then []
    else [forest[0].node] + Flatten(forest[0].children) + Flatten(forest[1..])
  }

  lemma FlattenCons(e: TreeNode, rest: seq<TreeNode>)
    ensures Flatten([e] + rest) == [e.node] + Flatten(e.children) + Flatten(rest)
  {
    assert ([e] + rest)[0] == e && ([e] + rest)[1..] == rest;
  }

  // ---------------- Every entry of the view, by its chain ----------------

  /** The chains of all entries below the chain `path`, in the order `Flatten` lists the entries. */
  ghost function Paths(nodes: seq<OutlineNode>, path: seq<nat>): seq<seq<nat>>
    requires UniqueIds(nodes) && IsRootPath(nodes, path)
    decreases |nodes| - |path|, 1, 0
  {
    RootPathBounded(nodes, path);
    PathsOf(nodes, path, Kids(nodes, ParentOf(nodes, path)))
  }

  ghost function PathsOf(nodes: seq<OutlineNode>, path: seq<nat>, kids: seq<nat>): seq<seq<nat>>
    requires UniqueIds(nodes) && IsRootPath(nodes, path)
    requires AllUnder(nodes, kids, ParentOf(nodes, path))
    decreases |nodes| - |path|, 0, |kids|
  {
    if kids == [] then []
    else
      AllUnderTail(nodes, kids, ParentOf(nodes, path));
      ExtendRootPath(nodes, path, kids[0]);
      [path + [kids[0]]] + Paths(nodes, path + [kids[0]]) + PathsOf(nodes, path, kids[1..])
  }

  /** `F` lists the nodes at the ends of the chains `P`. */
  ghost predicate Matches(nodes: seq<OutlineNode>, F: seq<OutlineNode>, P: seq<seq<nat>>) {
    |F| == |P| && forall t :: 0 <= t < |F| ==> P[t] != [] && Tip(P[t]) < |nodes| && F[t] == nodes[Tip(P[t])]
  }

  lemma MatchesConcat(nodes: seq<OutlineNode>, F1: seq<OutlineNode>, P1: seq<seq<nat>>, F2: seq<OutlineNode>, P2: seq<seq<nat>>)
    requires Matches(nodes, F1, P1) && Matches(nodes, F2, P2)
    ensures Matches(nodes, F1 + F2, P1 + P2)
  {
    forall t | |F1| <= t < |F1| + |F2| ensures (P1 + P2)[t] == P2[t - |F1|] && (F1 + F2)[t] == F2[t - |F1|] {}
  }

  lemma {:induction false} FlattenTree(nodes: seq<OutlineNode>, parent: Option<Id>, level: nat, path: seq<nat>)
    requires UniqueIds(nodes) && IsRootPath(nodes, path)
    requires level == |path| && parent == ParentOf(nodes, path)
    ensures Matches(nodes, Flatten(BuildTree(nodes, parent, level, path)), Paths(nodes, path))
    decreases |nodes| - level, 1, 0
  {
    RootPathBounded(nodes, path);
    FlattenEntries(nodes, parent, level, path, Kids(nodes, parent));
  }

  lemma {:induction false} FlattenEntries(nodes: seq<OutlineNode>, parent: Option<Id>, level: nat, path: seq<nat>, kids: seq<nat>)
    requires UniqueIds(nodes) && IsRootPath(nodes, path)
    requires level == |path| && parent == ParentOf(nodes, path)
    requires AllUnder(nodes, kids, parent)
    ensures Matches(nodes, Flatten(BuildEntries(nodes, parent, level, path, kids)), PathsOf(nodes, path, kids))
    decreases |nodes| - level, 0, |kids|
  {
    if kids != [] {
      var k := kids[0];
      var q := path + [k];
      EntriesCons(nodes, parent, level, path, kids);
      AllUnderTail(nodes, kids, parent);
      FlattenTree(nodes, Some(nodes[k].id), level + 1, q);
      FlattenEntries(nodes, parent, level, path, kids[1..]);
      MatchesStep(nodes, k, q, Flatten(BuildTree(nodes, Some(nodes[k].id), level + 1, q)), Paths(nodes, q),
        Flatten(BuildEntries(nodes, parent, level, path, kids[1..])), PathsOf(nodes, path, kids[1..]));
    }
  }

  /** The first entry of `BuildEntries`, and its flattening. */
  lemma EntriesCons(nodes: seq<OutlineNode>, parent: Option<Id>, level: nat, path: seq<nat>, kids: seq<nat>)
    requires UniqueIds(nodes) && IsRootPath(nodes, path)
    requires level == |path| && parent == ParentOf(nodes, path)
    requires AllUnder(nodes, kids, parent)
    requires kids != []
    ensures IsRootPath(nodes, path + [kids[0]]) && |path| < |nodes|
    ensures Flatten(BuildEntries(nodes, parent, level, path, kids))
         == [nodes[kids[0]]] + Flatten(BuildTree(nodes, Some(nodes[kids[0]].id), level + 1, path + [kids[0]]))
            + Flatten(BuildEntries(nodes, parent, level, path, kids[1..]))
  {
    var k := kids[0];
    AllUnderTail(nodes, kids, parent);
    ExtendRootPath(nodes, path, k);
    var e := TreeNode(nodes[k], level, BuildTree(nodes, Some(nodes[k].id), level + 1, path + [k]));
    var rest := BuildEntries(nodes, parent, level, path, kids[1..]);
    assert BuildEntries(nodes, parent, level, path, kids) == [e] + rest;
    FlattenCons(e, rest);
  }

  /** An entry whose chain is `q`, followed by its subtree and the remaining entries. */
  lemma MatchesStep(nodes: seq<OutlineNode>, k: nat, q: seq<nat>, F1: seq<OutlineNode>, P1: seq<seq<nat>>, F2: seq<OutlineNode>, P2: seq<seq<nat>>)
    requires k < |nodes| && q != [] && Tip(q) == k
    requires Matches(nodes, F1, P1) && Matches(nodes, F2, P2)
    ensures Matches(nodes, [nodes[k]] + F1 + F2, [q] + P1 + P2)
  {
    assert Matches(nodes, [nodes[k]], [q]);
    MatchesConcat(nodes, [nodes[k]], [q], F1, P1);
    MatchesConcat(nodes, [nodes[k]] + F1, [q] + P1, F2, P2);
  }

  /** `q` is a chain that strictly extends the chain `path`. */
  ghost predicate Extends(nodes: seq<OutlineNode>, q: seq<nat>, path: seq<nat>) {
    IsRootPath(nodes, q) && |path| < |q| && q[..|path|] == path
  }

  lemma {:induction false} PathsSound(nodes: seq<OutlineNode>, path: seq<nat>)
    requires UniqueIds(nodes) && IsRootPath(nodes, path)
    ensures forall q :: q in Paths(nodes, path) ==> Extends(nodes, q, path)
    decreases |nodes| - |path|, 1, 0
  {
    RootPathBounded(nodes, path);
    PathsOfSound(nodes, path, Kids(nodes, ParentOf(nodes, path)));
  }

  lemma {:induction false} PathsOfSound(nodes: seq<OutlineNode>, path: seq<nat>, kids: seq<nat>)
    requires UniqueIds(nodes) && IsRootPath(nodes, path)
    requires AllUnder(nodes, kids, ParentOf(nodes, path))
    ensures forall q :: q in PathsOf(nodes, path, kids) ==> Extends(nodes, q, path) && q[|path|] in kids
    decreases |nodes| - |path|, 0, |kids|
  {
    if kids != [] {
      var k := kids[0];
      var p1 := path + [k];
      AllUnderTail(nodes, kids, ParentOf(nodes, path));
      ExtendRootPath(nodes, path, k);
      PathsSound(nodes, p1);
      PathsOfSound(nodes, path, kids[1..]);
      SoundStep(nodes, path, kids, Paths(nodes, p1), PathsOf(nodes, path, kids[1..]));
    }
  }

  /** The chain through the first child, the chains below it and the chains through the other
      children all extend `path` through one of the children. */
  lemma SoundStep(nodes: seq<OutlineNode>, path: seq<nat>, kids: seq<nat>, A: seq<seq<nat>>, B: seq<seq<nat>>)
    requires kids != [] && IsRootPath(nodes, path + [kids[0]])
    requires forall q :: q in A ==> Extends(nodes, q, path + [kids[0]])
    requires forall q :: q in B ==> Extends(nodes, q, path) && q[|path|] in kids[1..]
    ensures forall q :: q in [path + [kids[0]]] + A + B ==> Extends(nodes, q, path) && q[|path|] in kids
  {
    var p1 := path + [kids[0]];
    forall q | q in A ensures Extends(nodes, q, path) && q[|path|] == kids[0] {
      assert q[..|p1|] == p1;
      assert q[..|path|] == q[..|p1|][..|path|];
    }
    assert p1[..|path|] == path;
    assert forall x :: x in kids[1..] ==> x in kids;
  }

  lemma SortedDistinct(nodes: seq<OutlineNode>, s: seq<nat>)
    requires InRange(nodes, s) && SortedByOrder(nodes, s)
    ensures Lists.Distinct(s)
  {
    forall a, b | 0 <= a < b < |s| ensures s[a] != s[b] {
      assert Before(nodes, s[a], s[b]);
    }
  }

  lemma {:induction false} PathsDistinct(nodes: seq<OutlineNode>, path: seq<nat>)
    requires UniqueIds(nodes) && IsRootPath(nodes, path)
    ensures Lists.Distinct(Paths(nodes, path))
    decreases |nodes| - |path|, 1, 0
  {
    RootPathBounded(nodes, path);
    var kids := Kids(nodes, ParentOf(nodes, path));
    SortedDistinct(nodes, kids);
    PathsOfDistinct(nodes, path, kids);
  }

  lemma {:induction false} PathsOfDistinct(nodes: seq<OutlineNode>, path: seq<nat>, kids: seq<nat>)
    requires UniqueIds(nodes) && IsRootPath(nodes, path)
    requires AllUnder(nodes, kids, ParentOf(nodes, path))
    requires Lists.Distinct(kids)
    ensures Lists.Distinct(PathsOf(nodes, path, kids))
    decreases |nodes| - |path|, 0, |kids|
  {
    if kids != [] {
      var k := kids[0];
      var p1 := path + [k];
      AllUnderTail(nodes, kids, ParentOf(nodes, path));
      ExtendRootPath(nodes, path, k);
      PathsDistinct(nodes, p1);
      PathsSound(nodes, p1);
      HeadPaths(nodes, path, k);
      PathsOfDistinct(nodes, path, kids[1..]);
      PathsOfSound(nodes, path, kids[1..]);
      assert k !in kids[1..] by {
        assert forall c :: 0 <= c < |kids| - 1 ==> kids[1..][c] == kids[c + 1];
      }
      Disjoint([p1] + Paths(nodes, p1), PathsOf(nodes, path, kids[1..]), |path|, k, kids[1..]);
      Lists.DistinctConcat([p1] + Paths(nodes, p1), PathsOf(nodes, path, kids[1..]));
    }
  }

  /** The chain `path + [k]` followed by the chains below it: all distinct, all passing through `k`. */
  lemma HeadPaths(nodes: seq<OutlineNode>, path: seq<nat>, k: nat)
    requires UniqueIds(nodes) && IsRootPath(nodes, path + [k])
    requires Lists.Distinct(Paths(nodes, path + [k]))
    requires forall q :: q in Paths(nodes, path + [k]) ==> Extends(nodes, q, path + [k])
    ensures Lists.Distinct([path + [k]] + Paths(nodes, path + [k]))
    ensures forall x :: x in [path + [k]] + Paths(nodes, path + [k]) ==> |path| < |x| && x[|path|] == k
  {
    var p1 := path + [k];
    var A := Paths(nodes, p1);
    forall x | x in A ensures |p1| < |x| && x[|path|] == k {
      assert x[..|p1|] == p1;
      assert x[|path|] == x[..|p1|][|path|];
    }
    assert forall b :: 0 <= b < |A| ==> A[b] in A;
    Lists.DistinctConcat([p1], A);
  }

  lemma Disjoint(head: seq<seq<nat>>, tail: seq<seq<nat>>, pos: nat, k: nat, others: seq<nat>)
    requires forall x :: x in head ==> pos < |x| && x[pos] == k
    requires forall x :: x in tail ==> pos < |x| && x[pos] in others
    requires k !in others
    ensures forall a, b :: 0 <= a < |head| && 0 <= b < |tail| ==> head[a] != tail[b]
  {
    forall a, b | 0 <= a < |head| && 0 <= b < |tail| ensures head[a] != tail[b] {
      assert head[a] in head && tail[b] in tail;
    }
  }

  /** Every chain that extends `path` is the chain of some entry below `path`. */
  lemma {:induction false} RootPathInPaths(nodes: seq<OutlineNode>, path: seq<nat>, q: seq<nat>)
    requires UniqueIds(nodes) && IsRootPath(nodes, path) && Extends(nodes, q, path)
    ensures q in Paths(nodes, path)
    decreases |nodes| - |path|
  {
    var k := q[|path|];
    NextOnPath(nodes, path, q);
    RootPathBounded(nodes, path);
    PathsOfIncludes(nodes, path, Kids(nodes, ParentOf(nodes, path)), k);
    if |q| > |path| + 1 {
      RootPathInPaths(nodes, path + [k], q);
    }
  }

  /** The node after `path` on a chain that extends it is one of the children of `path`'s end. */
  lemma NextOnPath(nodes: seq<OutlineNode>, path: seq<nat>, q: seq<nat>)
    requires UniqueIds(nodes) && IsRootPath(nodes, path) && Extends(nodes, q, path)
    ensures var k := q[|path|];
      && k in Kids(nodes, ParentOf(nodes, path))
      && IsRootPath(nodes, path + [k]) && |q| <= |nodes|
      && (|q| > |path| + 1 ==> Extends(nodes, q, path + [k]))
      && (|q| == |path| + 1 ==> q == path + [k])
  {
    RootPathBounded(nodes, q);
    var k := q[|path|];
    if |path| > 0 {
      assert q[|path| - 1] == q[..|path|][|path| - 1];
    }
    assert nodes[k].parentId == ParentOf(nodes, path);
    ExtendRootPath(nodes, path, k);
    assert q[..|path| + 1] == path + [k];
  }

  lemma {:induction false} PathsOfIncludes(nodes: seq<OutlineNode>, path: seq<nat>, kids: seq<nat>, k: nat)
    requires UniqueIds(nodes) && IsRootPath(nodes, path)
    requires AllUnder(nodes, kids, ParentOf(nodes, path))
    requires k in kids
    ensures IsRootPath(nodes, path + [k])
    ensures path + [k] in PathsOf(nodes, path, kids)
    ensures forall x :: x in Paths(nodes, path + [k]) ==> x in PathsOf(nodes, path, kids)
    decreases |kids|
  {
    AllUnderTail(nodes, kids, ParentOf(nodes, path));
    ExtendRootPath(nodes, path, k);
    ExtendRootPath(nodes, path, kids[0]);
    if kids[0] != k {
      PathsOfIncludes(nodes, path, kids[1..], k);
    }
  }

  // ---------------- What treeData contains ----------------

  /** With unique ids no node appears twice in `treeData`, so it never has more entries than the
      list has nodes. */
  lemma TreeDataNoDuplicates(nodes: seq<OutlineNode>)
    requires UniqueIds(nodes)
    ensures var F := Flatten(TreeData(nodes));
      |F| <= |nodes| && forall a, b :: 0 <= a < b < |F| ==> F[a].id != F[b].id
  {
    var F, P := Flatten(TreeData(nodes)), Paths(nodes, []);
    FlattenTree(nodes, None, 0, []);
    PathsSound(nodes, []);
    PathsDistinct(nodes, []);
    assert forall t :: 0 <= t < |P| ==> P[t] in P;
    var I := Tips(P);
    TipsDistinct(nodes, P);
    DistinctBounded(I, |nodes|);
    forall a, b | 0 <= a < b < |F| ensures F[a].id != F[b].id {
      assert F[a] == nodes[I[a]] && F[b] == nodes[I[b]];
    }
  }

  function Tips(P: seq<seq<nat>>): (r: seq<nat>)
    requires forall t :: 0 <= t < |P| ==> P[t] != []
    ensures |r| == |P| && forall t :: 0 <= t < |P| ==> r[t] == Tip(P[t])
  {
    seq(|P|, t requires 0 <= t < |P| => Tip(P[t]))
  }

  /** Distinct chains end at distinct nodes. */
  lemma TipsDistinct(nodes: seq<OutlineNode>, P: seq<seq<nat>>)
    requires UniqueIds(nodes) && Lists.Distinct(P)
    requires forall t :: 0 <= t < |P| ==> IsRootPath(nodes, P[t]) && P[t] != []
    ensures Lists.Distinct(Tips(P)) && InRange(nodes, Tips(P))
  {
    var I := Tips(P);
    forall a, b | 0 <= a < b < |P| ensures I[a] != I[b] {
      if I[a] == I[b] {
        RootPathUnique(nodes, P[a], P[b]);
      }
    }
  }

  /** `treeData` holds exactly the nodes whose chain of parent links reaches a node with a null
      parent; a node on a cycle, or below a missing parent, is left out. */
  lemma TreeDataIsReachable(nodes: seq<OutlineNode>, i: nat)
    requires UniqueIds(nodes) && i < |nodes|
    ensures nodes[i] in Flatten(TreeData(nodes)) <==> HasRootChain(nodes, i)
  {
    var F, P := Flatten(TreeData(nodes)), Paths(nodes, []);
    FlattenTree(nodes, None, 0, []);
    PathsSound(nodes, []);
    if nodes[i] in F {
      var t :| 0 <= t < |F| && F[t] == nodes[i];
      assert P[t] in P && IsRootPath(nodes, P[t]) && Tip(P[t]) == i;
    }
    if HasRootChain(nodes, i) {
      var q :| IsRootPath(nodes, q) && q != [] && Tip(q) == i;
      RootPathInPaths(nodes, [], q);
      var t :| 0 <= t < |P| && P[t] == q;
      assert F[t] == nodes[i];
    }
  }
}
