/** The outline store (src/stores/domain/outlineStore.ts): the flat list of outline nodes, the
    type filters and word-count total computed from it, and the two actions that change it,
    `createNode` and `updateNode`. The tree view is in module OutlineTree. */
module OutlineStore {
  import opened Wrappers
  import opened Types
  import Lists
  import OutlineTree

  // ---------------- Getters ----------------

  function NodeKind(n: OutlineNode): NodeType { n.nodeType }

  /** `books`, `volumes`, `chapters` and `scenes`: the nodes of type `t`, in list order. */
  function OfType(nodes: seq<OutlineNode>, t: NodeType): (r: seq<OutlineNode>)
    ensures forall i :: 0 <= i < |r| ==> r[i] in nodes && r[i].nodeType == t
    ensures forall i :: 0 <= i < |nodes| && nodes[i].nodeType == t ==> nodes[i] in r
  {
    Lists.WithKey(nodes, NodeKind, t)
  }

  lemma OfTypeCons(nodes: seq<OutlineNode>, t: NodeType)
    requires nodes != []
    ensures OfType(nodes, t) == (if nodes[0].nodeType == t then [nodes[0]] else []) + OfType(nodes[1..], t)
  {
  }

  /** The four type filters split the list: every node is in exactly one of them. */
  lemma {:induction false} TypeFiltersPartition(nodes: seq<OutlineNode>)
    ensures multiset(OfType(nodes, Book)) + multiset(OfType(nodes, Volume))
          + multiset(OfType(nodes, Chapter)) + multiset(OfType(nodes, Scene)) == multiset(nodes)
    ensures |OfType(nodes, Book)| + |OfType(nodes, Volume)| + |OfType(nodes, Chapter)| + |OfType(nodes, Scene)| == |nodes|
  {
    if nodes != [] {
      var rest := nodes[1..];
      TypeFiltersPartition(rest);
      OneFilterGrows(nodes);
      GrowOne(nodes[0], rest, nodes, OfType(rest, Book), OfType(rest, Volume), OfType(rest, Chapter), OfType(rest, Scene),
        OfType(nodes, Book), OfType(nodes, Volume), OfType(nodes, Chapter), OfType(nodes, Scene));
    }
    SizesOfParts(OfType(nodes, Book), OfType(nodes, Volume), OfType(nodes, Chapter), OfType(nodes, Scene), nodes);
  }

  /** The first node lands in the filter of its own type and in no other. */
  lemma OneFilterGrows(nodes: seq<OutlineNode>)
    requires nodes != []
    ensures var x, rest := nodes[0], nodes[1..];
      || (OfType(nodes, Book) == [x] + OfType(rest, Book) && OfType(nodes, Volume) == OfType(rest, Volume)
          && OfType(nodes, Chapter) == OfType(rest, Chapter) && OfType(nodes, Scene) == OfType(rest, Scene))
      || (OfType(nodes, Book) == OfType(rest, Book) && OfType(nodes, Volume) == [x] + OfType(rest, Volume)
          && OfType(nodes, Chapter) == OfType(rest, Chapter) && OfType(nodes, Scene) == OfType(rest, Scene))
      || (OfType(nodes, Book) == OfType(rest, Book) && OfType(nodes, Volume) == OfType(rest, Volume)
          && OfType(nodes, Chapter) == [x] + OfType(rest, Chapter) && OfType(nodes, Scene) == OfType(rest, Scene))
      || (OfType(nodes, Book) == OfType(rest, Book) && OfType(nodes, Volume) == OfType(rest, Volume)
          && OfType(nodes, Chapter) == OfType(rest, Chapter) && OfType(nodes, Scene) == [x] + OfType(rest, Scene))
  {
    OfTypeCons(nodes, Book);
    OfTypeCons(nodes, Volume);
    OfTypeCons(nodes, Chapter);
    OfTypeCons(nodes, Scene);
  }

  /** Adding `x` to exactly one of four parts of `rest` gives four parts of `[x] + rest`. */
  lemma GrowOne<T>(x: T, rest: seq<T>, all: seq<T>, b: seq<T>, v: seq<T>, c: seq<T>, s: seq<T>, B: seq<T>, V: seq<T>, C: seq<T>, S: seq<T>)
    requires all != [] && x == all[0] && rest == all[1..]
    requires multiset(b) + multiset(v) + multiset(c) + multiset(s) == multiset(rest)
    requires || (B == [x] + b && V == v && C == c && S == s)
             || (B == b && V == [x] + v && C == c && S == s)
             || (B == b && V == v && C == [x] + c && S == s)
             || (B == b && V == v && C == c && S == [x] + s)
    ensures multiset(B) + multiset(V) + multiset(C) + multiset(S) == multiset(all)
  {
    assert all == [x] + rest;
    assert multiset(all) == multiset{x} + multiset(rest);
  }

  /** Four lists whose elements together are those of `all` have `|all|` elements together. */
  lemma SizesOfParts<T>(b: seq<T>, v: seq<T>, c: seq<T>, s: seq<T>, all: seq<T>)
    requires multiset(b) + multiset(v) + multiset(c) + multiset(s) == multiset(all)
    ensures |b| + |v| + |c| + |s| == |all|
  {
    assert |multiset(b) + multiset(v) + multiset(c) + multiset(s)| == |b| + |v| + |c| + |s|;
  }

  /** A node's contribution to the total: `metadata.wordCount || 0`. */
  function WordCount(n: OutlineNode): int {
    n.metadata.wordCount.GetOr(0)
  }

  /** `wordCountTotal`: the left fold `reduce((sum, node) => sum + wordCount, 0)`. */
  function WordCountTotal(nodes: seq<OutlineNode>): int {
    if nodes == [] then 0
    else WordCountTotal(nodes[..|nodes| - 1]) + WordCount(nodes[|nodes| - 1])
  }

  /** The total is additive over concatenation. */
  lemma {:induction false} WordCountTotalAppend(a: seq<OutlineNode>, b: seq<OutlineNode>)
    ensures WordCountTotal(a + b) == WordCountTotal(a) + WordCountTotal(b)
    decreases |b|
  {
    if b != [] {
      var b' := b[..|b| - 1];
      assert (a + b)[..|a + b| - 1] == a + b';
      assert (a + b)[|a + b| - 1] == b[|b| - 1];
      WordCountTotalAppend(a, b');
    } else {
      assert a + b == a;
    }
  }

  /** Replacing one node changes the total by the difference of the two nodes' counts. */
  lemma WordCountTotalReplace(nodes: seq<OutlineNode>, i: nat, n: OutlineNode)
    requires i < |nodes|
    ensures WordCountTotal(nodes[i := n]) == WordCountTotal(nodes) - WordCount(nodes[i]) + WordCount(n)
  {
    assert nodes == nodes[..i] + [nodes[i]] + nodes[i + 1..];
    assert nodes[i := n] == nodes[..i] + [n] + nodes[i + 1..];
    WordCountTotalAppend(nodes[..i] + [nodes[i]], nodes[i + 1..]);
    WordCountTotalAppend(nodes[..i] + [n], nodes[i + 1..]);
    WordCountTotalAppend(nodes[..i], [nodes[i]]);
    WordCountTotalAppend(nodes[..i], [n]);
    assert [nodes[i]][..0] == [] && [n][..0] == [];
  }

  /** With no negative word counts the total is at least each node's count. */
  lemma {:induction false} WordCountTotalBounds(nodes: seq<OutlineNode>)
    requires forall i :: 0 <= i < |nodes| ==> WordCount(nodes[i]) >= 0
    ensures WordCountTotal(nodes) >= 0
    ensures forall i :: 0 <= i < |nodes| ==> WordCount(nodes[i]) <= WordCountTotal(nodes)
  {
    if nodes != [] {
      var init := nodes[..|nodes| - 1];
      WordCountTotalBounds(init);
      forall i | 0 <= i < |nodes| ensures WordCount(nodes[i]) <= WordCountTotal(nodes) {
        if i < |init| {
          assert nodes[i] == init[i];
        }
      }
    }
  }

  // ---------------- createNode ----------------

  /** The `parentId` a caller passes to `createNode`: left out (`undefined`), `null`, or an id. */
  datatype ParentArg = Omitted | NullParent | ParentId(id: Id)

  datatype NewNodeData = NewNodeData(
    name: string,
    nodeType: NodeType,
    parentId: ParentArg,
    projectId: Id,
    metadata: Option<NodeMetadata>)

  /** `n.parentId === data.parentId`, with `n.parentId` a stored `string | null`: a stored parent
      never equals `undefined`. */
  predicate SameParent(stored: Option<Id>, arg: ParentArg) {
    match arg
    case Omitted => false
    case NullParent => stored == None
    case ParentId(p) => stored == Some(p)
  }

  /** `data.parentId || null`: an omitted parent, `null` and the empty string are all stored as
      null. */
  function StoredParent(arg: ParentArg): Option<Id> {
    match arg
    case ParentId(p) => if p == "" then None else Some(p)
    case _ => None
  }

  /** The sibling lookup agrees with what is stored exactly when the argument is `null` or a
      non-empty id. An omitted parent finds no siblings, while the node is stored as a root. For
      `""` the lookup finds only nodes whose stored `parentId` is `""`, and `createNode` never
      stores one, since it turns `""` into null. */
  lemma StoredParentMatches(arg: ParentArg)
    ensures SameParent(StoredParent(arg), arg) <==> arg.NullParent? || (arg.ParentId? && arg.id != "")
  {
  }

  /** `nodes.filter(n => n.parentId === data.parentId)`. */
  function Siblings(nodes: seq<OutlineNode>, arg: ParentArg): (r: seq<OutlineNode>)
    ensures forall i :: 0 <= i < |r| ==> r[i] in nodes && SameParent(r[i].parentId, arg)
    ensures forall i :: 0 <= i < |nodes| && SameParent(nodes[i].parentId, arg) ==> nodes[i] in r
  {
    if nodes == [] then []
    else (if SameParent(nodes[0].parentId, arg) then [nodes[0]] else []) + Siblings(nodes[1..], arg)
  }

  /** `reduce((max, n) => Math.max(max, n.order), -1)`: the largest order, or -1 when it is
      larger. */
  function MaxOrder(s: seq<OutlineNode>): (r: int)
    ensures r >= -1
    ensures forall i :: 0 <= i < |s| ==> s[i].order <= r
    ensures r == -1 || exists i :: 0 <= i < |s| && s[i].order == r
  {
    if s == [] then -1
    else
      var m := MaxOrder(s[..|s| - 1]);
      var o := s[|s| - 1].order;
      assert forall i :: 0 <= i < |s| - 1 ==> s[..|s| - 1][i] == s[i];
      if m < o then o else m
  }

  /** The order a new node gets: one past every sibling's, and the least such that is at least
      zero. */
  function NextOrder(nodes: seq<OutlineNode>, arg: ParentArg): (r: int)
    ensures r >= 0
    ensures forall i :: 0 <= i < |nodes| && SameParent(nodes[i].parentId, arg) ==> nodes[i].order < r
    ensures r == 0 || exists i :: 0 <= i < |nodes| && SameParent(nodes[i].parentId, arg) && nodes[i].order == r - 1
  {
    SiblingMaxAttained(nodes, arg);
    MaxOrder(Siblings(nodes, arg)) + 1
  }

  lemma SiblingMaxAttained(nodes: seq<OutlineNode>, arg: ParentArg)
    ensures var m := MaxOrder(Siblings(nodes, arg));
      m == -1 || exists i :: 0 <= i < |nodes| && SameParent(nodes[i].parentId, arg) && nodes[i].order == m
  {
    var sib := Siblings(nodes, arg);
    var m := MaxOrder(sib);
    if m != -1 {
      var j :| 0 <= j < |sib| && sib[j].order == m;
      assert sib[j] in nodes;
    }
  }

  /** The node `createNode` builds, given the id and clock value it draws. */
  function NewNode(nodes: seq<OutlineNode>, data: NewNodeData, id: Id, now: int): OutlineNode {
    OutlineNode(
      id, data.projectId, StoredParent(data.parentId), data.nodeType, data.name,
      NextOrder(nodes, data.parentId), false, Draft, 0, data.metadata.GetOr(EmptyMetadata), now, now)
  }

  // ---------------- updateNode ----------------

  /** `{ ...node, ...updates, updatedAt: now }`. */
  function MergeNode(n: OutlineNode, u: OutlineNodePatch, now: int): OutlineNode {
    OutlineNode(
      u.id.GetOr(n.id), u.projectId.GetOr(n.projectId), u.parentId.GetOr(n.parentId),
      u.nodeType.GetOr(n.nodeType), u.title.GetOr(n.title), u.order.GetOr(n.order),
      u.expanded.GetOr(n.expanded), u.status.GetOr(n.status), u.wordCountGoal.GetOr(n.wordCountGoal),
      u.metadata.GetOr(n.metadata), u.createdAt.GetOr(n.createdAt), now)
  }

  function IndexOfNode(nodes: seq<OutlineNode>, id: Id): Option<nat> {
    Lists.IndexOfKey(nodes, NodeIdOf, id)
  }

  // ---------------- The store ----------------

  /** The store's state that its actions change: the node list and the selected node. */
  class Store {
    var nodes: seq<OutlineNode>
    var currentNode: Option<OutlineNode>

    constructor()
      ensures nodes == [] && currentNode == None
    {
      nodes := [];
      currentNode := None;
    }

    /** `createNode`. `freshId` and `now` stand for `crypto.randomUUID()` and `Date.now()`;
        `writeOk` says whether the database write succeeds. A failed write throws before the
        list is touched. */
    method CreateNode(data: NewNodeData, freshId: Id, now: int, writeOk: bool) returns (r: Result<OutlineNode, StoreError>)
      modifies this
      ensures currentNode == old(currentNode)
      ensures !writeOk ==> r == Failure(WriteFailed) && nodes == old(nodes)
      ensures writeOk ==> r == Success(NewNode(old(nodes), data, freshId, now)) && nodes == old(nodes) + [r.value]
      ensures writeOk ==> var n := r.value;
        && n.id == freshId && n.projectId == data.projectId && n.nodeType == data.nodeType
        && n.title == data.name && n.parentId == StoredParent(data.parentId)
        && n.order == NextOrder(old(nodes), data.parentId)
        && !n.expanded && n.status == Draft && n.wordCountGoal == 0
        && n.metadata == data.metadata.GetOr(EmptyMetadata)
        && n.createdAt == now && n.updatedAt == now
    {
      var n := NewNode(nodes, data, freshId, now);
      if !writeOk {
        return Failure(WriteFailed);
      }
      nodes := nodes + [n];
      r := Success(n);
    }

    /** `updateNode`: merge `updates` into the first node with id `id`, stamp it with `now`, and
        refresh the selected node if it has that id. */
    method UpdateNode(id: Id, updates: OutlineNodePatch, now: int, writeOk: bool) returns (r: Outcome<StoreError>)
      modifies this
      ensures IndexOfNode(old(nodes), id).None? ==>
        r == Fail(NotFound("Node not found")) && nodes == old(nodes) && currentNode == old(currentNode)
      ensures IndexOfNode(old(nodes), id).Some? && !writeOk ==>
        r == Fail(WriteFailed) && nodes == old(nodes) && currentNode == old(currentNode)
      ensures IndexOfNode(old(nodes), id).Some? && writeOk ==>
        var i := IndexOfNode(old(nodes), id).value;
        var updated := MergeNode(old(nodes)[i], updates, now);
        && r == Pass
        && nodes == old(nodes)[i := updated]
        && currentNode == (if old(currentNode).Some? && old(currentNode).value.id == id then Some(updated) else old(currentNode))
    {
      var found := IndexOfNode(nodes, id);
      if found.None? {
        return Fail(NotFound("Node not found"));
      }
      var updated := MergeNode(nodes[found.value], updates, now);
      if !writeOk {
        return Fail(WriteFailed);
      }
      nodes := nodes[found.value := updated];
      if currentNode.Some? && currentNode.value.id == id {
        currentNode := Some(updated);
      }
      r := Pass;
    }
  }

  // ---------------- What the actions keep ----------------

  /** Nodes that share a parent have distinct orders, so sorting siblings by order is total. */
  ghost predicate DistinctSiblingOrders(nodes: seq<OutlineNode>) {
    forall i, j :: 0 <= i < j < |nodes| && nodes[i].parentId == nodes[j].parentId ==> nodes[i].order != nodes[j].order
  }

  /** Creating a node under `null` or under a non-empty id keeps sibling orders distinct. */
  lemma CreateKeepsSiblingOrdersDistinct(nodes: seq<OutlineNode>, data: NewNodeData, id: Id, now: int)
    requires DistinctSiblingOrders(nodes)
    requires data.parentId.NullParent? || (data.parentId.ParentId? && data.parentId.id != "")
    ensures DistinctSiblingOrders(nodes + [NewNode(nodes, data, id, now)])
  {
    var n := NewNode(nodes, data, id, now);
    var s := nodes + [n];
    forall i, j | 0 <= i < j < |s| && s[i].parentId == s[j].parentId ensures s[i].order != s[j].order {
      if j == |nodes| {
        assert SameParent(nodes[i].parentId, data.parentId);
      }
    }
  }

  /** An omitted parent makes the new node a root whose order restarts at zero, whatever roots
      exist. */
  lemma OmittedParentRestartsAtZero(nodes: seq<OutlineNode>, data: NewNodeData, id: Id, now: int)
    requires data.parentId.Omitted?
    ensures NewNode(nodes, data, id, now).parentId == None
    ensures NewNode(nodes, data, id, now).order == 0
  {
  }

  /** So with a root of order 0 already present, creating a node without a parent gives two roots
      of order 0. */
  lemma OmittedParentCollides(nodes: seq<OutlineNode>, data: NewNodeData, id: Id, now: int, k: nat)
    requires data.parentId.Omitted?
    requires k < |nodes| && nodes[k].parentId == None && nodes[k].order == 0
    ensures !DistinctSiblingOrders(nodes + [NewNode(nodes, data, id, now)])
  {
    OmittedParentRestartsAtZero(nodes, data, id, now);
    var s := nodes + [NewNode(nodes, data, id, now)];
    assert s[k] == nodes[k] && s[|nodes|].parentId == s[k].parentId && s[|nodes|].order == s[k].order;
  }

  /** An update that changes neither `parentId` nor `order` keeps sibling orders distinct. */
  lemma UpdateKeepsSiblingOrdersDistinct(nodes: seq<OutlineNode>, i: nat, u: OutlineNodePatch, now: int)
    requires DistinctSiblingOrders(nodes) && i < |nodes|
    requires u.parentId.None? && u.order.None?
    ensures DistinctSiblingOrders(nodes[i := MergeNode(nodes[i], u, now)])
  {
    var s := nodes[i := MergeNode(nodes[i], u, now)];
    forall a, b | 0 <= a < b < |s| && s[a].parentId == s[b].parentId ensures s[a].order != s[b].order {
      assert s[a].parentId == nodes[a].parentId && s[a].order == nodes[a].order;
      assert s[b].parentId == nodes[b].parentId && s[b].order == nodes[b].order;
    }
  }

  /** A fresh id keeps ids unique. */
  lemma CreateKeepsIdsUnique(nodes: seq<OutlineNode>, data: NewNodeData, id: Id, now: int)
    requires OutlineTree.UniqueIds(nodes)
    requires forall i :: 0 <= i < |nodes| ==> nodes[i].id != id
    ensures OutlineTree.UniqueIds(nodes + [NewNode(nodes, data, id, now)])
  {
    var s := nodes + [NewNode(nodes, data, id, now)];
    forall a, b | 0 <= a < |s| && 0 <= b < |s| && s[a].id == s[b].id ensures a == b {
      if a < |nodes| && b < |nodes| {
        assert s[a] == nodes[a] && s[b] == nodes[b];
      }
    }
  }

  /** An update that leaves `id` out of the patch, or repeats the node's own id, keeps ids unique. */
  lemma UpdateKeepsIdsUnique(nodes: seq<OutlineNode>, i: nat, u: OutlineNodePatch, now: int)
    requires OutlineTree.UniqueIds(nodes) && i < |nodes|
    requires u.id.None? || u.id == Some(nodes[i].id)
    ensures OutlineTree.UniqueIds(nodes[i := MergeNode(nodes[i], u, now)])
  {
    var s := nodes[i := MergeNode(nodes[i], u, now)];
    forall a, b | 0 <= a < |s| && 0 <= b < |s| && s[a].id == s[b].id ensures a == b {
      assert s[a].id == nodes[a].id && s[b].id == nodes[b].id;
    }
  }

  /** A created node adds its own word count to the total. */
  lemma CreateAddsWordCount(nodes: seq<OutlineNode>, data: NewNodeData, id: Id, now: int)
    ensures WordCountTotal(nodes + [NewNode(nodes, data, id, now)])
         == WordCountTotal(nodes) + data.metadata.GetOr(EmptyMetadata).wordCount.GetOr(0)
  {
    WordCountTotalAppend(nodes, [NewNode(nodes, data, id, now)]);
    assert [NewNode(nodes, data, id, now)][..0] == [];
  }

  lemma RootPathGrows(nodes: seq<OutlineNode>, extra: seq<OutlineNode>, q: seq<nat>)
    requires OutlineTree.IsRootPath(nodes, q)
    ensures OutlineTree.IsRootPath(nodes + extra, q)
  {
    assert forall t :: 0 <= t < |q| ==> (nodes + extra)[q[t]] == nodes[q[t]];
  }

  /** A node created as a root, or under a node whose parent chain reaches a root, shows up in
      the tree view. */
  lemma CreatedNodeIsListed(nodes: seq<OutlineNode>, data: NewNodeData, id: Id, now: int, p: nat)
    requires OutlineTree.UniqueIds(nodes + [NewNode(nodes, data, id, now)])
    requires StoredParent(data.parentId).Some? ==>
      p < |nodes| && Some(nodes[p].id) == StoredParent(data.parentId) && OutlineTree.HasRootChain(nodes, p)
    ensures NewNode(nodes, data, id, now) in OutlineTree.Flatten(OutlineTree.TreeData(nodes + [NewNode(nodes, data, id, now)]))
  {
    var s := nodes + [NewNode(nodes, data, id, now)];
    CreatedHasRootChain(nodes, data, id, now, p);
    OutlineTree.TreeDataIsReachable(s, |nodes|);
  }

  /** The created node, at position `|nodes|`, ends a chain of parent links from a root. */
  lemma CreatedHasRootChain(nodes: seq<OutlineNode>, data: NewNodeData, id: Id, now: int, p: nat)
    requires OutlineTree.UniqueIds(nodes + [NewNode(nodes, data, id, now)])
    requires StoredParent(data.parentId).Some? ==>
      p < |nodes| && Some(nodes[p].id) == StoredParent(data.parentId) && OutlineTree.HasRootChain(nodes, p)
    ensures OutlineTree.HasRootChain(nodes + [NewNode(nodes, data, id, now)], |nodes|)
  {
    var n := NewNode(nodes, data, id, now);
    var s := nodes + [n];
    var k := |nodes|;
    if StoredParent(data.parentId).None? {
      assert OutlineTree.IsRootPath(s, [k]);
      assert OutlineTree.Tip([k]) == k;
    } else {
      var q :| OutlineTree.IsRootPath(nodes, q) && q != [] && OutlineTree.Tip(q) == p;
      RootPathGrows(nodes, [n], q);
      assert s[p] == nodes[p];
      OutlineTree.ExtendRootPath(s, q, k);
      assert OutlineTree.Tip(q + [k]) == k;
    }
  }
}
