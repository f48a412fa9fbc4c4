/**
 Ordering folders by dependency level.

 The graph is built from nodes updated in place: children are appended, levels assigned by a
 recursive traversal from the roots. Its termination is not obvious, because the parent annotations
 of the input may form cycles; the measure is that a node reached from a root at level k has k
 distinct ancestors.
 */
module FolderLevels {

  /** A folder manifest: its name, the folder annotation naming its parent ("" for none), its content. */
  datatype Resource = Resource(name: string, folder: string, content: string)

  /** The folders by name; the last one wins when a name is repeated, as in the node map. */
  function ByName(folders: seq<Resource>): (m: map<string, Resource>)
    ensures forall u | u in m :: m[u].name == u && m[u] in folders
    ensures forall i | 0 <= i < |folders| :: folders[i].name in m
  {
    if folders == [] then map[]
    else
      var last := folders[|folders| - 1];
      ByName(folders[..|folders| - 1])[last.name := last]
  }

  /** Of several folders of one name the last counts. */
  lemma {:induction false} LastOfNameWins(folders: seq<Resource>, i: nat)
    requires i < |folders| && forall j | i < j < |folders| :: folders[j].name != folders[i].name
    ensures ByName(folders)[folders[i].name] == folders[i]
  {
    if i < |folders| - 1 {
      LastOfNameWins(folders[..|folders| - 1], i);
    }
  }

  predicate IsRoot(m: map<string, Resource>, u: string)
    requires u in m
  {
    m[u].folder == "" || m[u].folder !in m
  }

  /** The parent chain of u reaches a root after exactly d steps. */
  predicate HasDepth(m: map<string, Resource>, u: string, d: nat)
    requires u in m
    decreases d
  {
    if d == 0 then IsRoot(m, u) else !IsRoot(m, u) && HasDepth(m, m[u].folder, d - 1)
  }

  /** Going up k parents inside the set leads from v to u. */
  predicate Under(m: map<string, Resource>, v: string, u: string, k: nat)
    requires v in m
    decreases k
  {
    if k == 0 then u == v else !IsRoot(m, v) && Under(m, m[v].folder, u, k - 1)
  }

  ghost predicate ReachesRoot(m: map<string, Resource>, u: string)
    requires u in m
  {
    exists d: nat :: HasDepth(m, u, d)
  }

  lemma {:induction false} DepthIsUnique(m: map<string, Resource>, u: string, d: nat, e: nat)
    requires u in m && HasDepth(m, u, d) && HasDepth(m, u, e)
    ensures d == e
    decreases d
  {
    if d > 0 && e > 0 {
      DepthIsUnique(m, m[u].folder, d - 1, e - 1);
    }
  }

  /** u and its ancestors up to the root. */
  function Line(m: map<string, Resource>, u: string, d: nat): set<string>
    requires u in m && HasDepth(m, u, d)
    decreases d
  {
    if d == 0 then {u} else {u} + Line(m, m[u].folder, d - 1)
  }

  lemma {:induction false} LineMember(m: map<string, Resource>, u: string, d: nat, v: string) returns (e: nat)
    requires u in m && HasDepth(m, u, d) && v in Line(m, u, d)
    ensures v in m && e <= d && HasDepth(m, v, e)
    decreases d
  {
    e := d;
    if v != u {
      e := LineMember(m, m[u].folder, d - 1, v);
    }
  }

  lemma {:induction false} LineIsLong(m: map<string, Resource>, u: string, d: nat)
    requires u in m && HasDepth(m, u, d)
    ensures |Line(m, u, d)| == d + 1
    decreases d
  {
    if d > 0 {
      LineIsLong(m, m[u].folder, d - 1);
      if u in Line(m, m[u].folder, d - 1) {
        var e := LineMember(m, m[u].folder, d - 1, u);
        DepthIsUnique(m, u, d, e);
      }
    }
  }

  /** A depth is smaller than the number of folders: what bounds the recursion. */
  lemma DepthIsBounded(m: map<string, Resource>, u: string, d: nat)
    requires u in m && HasDepth(m, u, d)
    ensures d < |m|
  {
    LineIsLong(m, u, d);
    forall v | v in Line(m, u, d) ensures v in m.Keys {
      var e := LineMember(m, u, d, v);
    }
    SubsetIsNotLarger(Line(m, u, d), m.Keys);
  }

  lemma {:induction false} SubsetIsNotLarger(a: set<string>, b: set<string>)
    requires a <= b
    ensures |a| <= |b|
  {
    if x :| x in a {
      SubsetIsNotLarger(a - {x}, b - {x});
    }
  }

  /** The last step of a path down from u goes through one of u's children. */
  lemma {:induction false} UnderThroughChild(m: map<string, Resource>, v: string, u: string, k: nat)
    returns (child: string)
    requires v in m && Under(m, v, u, k) && k > 0
    ensures child in m && !IsRoot(m, child) && m[child].folder == u && Under(m, v, child, k - 1)
    decreases k
  {
    if k == 1 {
      child := v;
    } else {
      child := UnderThroughChild(m, m[v].folder, u, k - 1);
    }
  }

  lemma {:induction false} RootAbove(m: map<string, Resource>, v: string, d: nat) returns (root: string)
    requires v in m && HasDepth(m, v, d)
    ensures root in m && IsRoot(m, root) && Under(m, v, root, d)
    decreases d
  {
    root := v;
    if d > 0 {
      root := RootAbove(m, m[v].folder, d - 1);
    }
  }

  lemma {:induction false} AncestorAtDepth(m: map<string, Resource>, u: string, d: nat, e: nat) returns (v: string)
    requires u in m && HasDepth(m, u, d) && e <= d
    ensures v in m && HasDepth(m, v, e)
    decreases d
  {
    v := u;
    if e < d {
      v := AncestorAtDepth(m, m[u].folder, d - 1, e);
    }
  }

  // ---------------------------------------------------------------------------------------------
  // Cycles
  // ---------------------------------------------------------------------------------------------

  ghost predicate HasCycle(m: map<string, Resource>) {
    exists u, k: nat :: u in m && k > 0 && Under(m, u, u, k)
  }

  lemma {:induction false} DepthAlongChain(m: map<string, Resource>, v: string, u: string, k: nat, d: nat)
    requires v in m && Under(m, v, u, k) && HasDepth(m, v, d)
    ensures u in m && k <= d && HasDepth(m, u, d - k)
    decreases k
  {
    if k > 0 {
      DepthAlongChain(m, m[v].folder, u, k - 1, d - 1);
    }
  }

  lemma {:induction false} ChainExtends(m: map<string, Resource>, v: string, u: string, k: nat)
    requires v in m && u in m && Under(m, v, u, k) && !IsRoot(m, u)
    ensures Under(m, v, m[u].folder, k + 1)
    decreases k
  {
    if k > 0 {
      ChainExtends(m, m[v].folder, u, k - 1);
    }
  }

  ghost predicate StrictlyUnder(m: map<string, Resource>, v: string, u: string)
    requires v in m
  {
    exists k: nat :: k > 0 && Under(m, v, u, k)
  }

  /** Following parents without meeting a root must come back to a folder already seen. */
  lemma {:induction false} WalkFindsCycle(m: map<string, Resource>, u: string, seen: set<string>)
    requires u in m && !ReachesRoot(m, u) && seen <= m.Keys
    requires forall v | v in seen :: StrictlyUnder(m, v, u)
    ensures HasCycle(m)
    decreases m.Keys - seen
  {
    assert !HasDepth(m, u, 0);
    if u !in seen {
      var parent := m[u].folder;
      if d: nat :| HasDepth(m, parent, d) {
        assert HasDepth(m, u, d + 1);
      }
      forall v | v in seen + {u} ensures StrictlyUnder(m, v, parent) {
        if v == u {
          assert Under(m, u, u, 0);
          ChainExtends(m, u, u, 0);
        } else {
          var k: nat :| k > 0 && Under(m, v, u, k);
          ChainExtends(m, v, u, k);
        }
      }
      WalkFindsCycle(m, parent, seen + {u});
    }
  }

  // ---------------------------------------------------------------------------------------------
  // The graph and its traversal
  // ---------------------------------------------------------------------------------------------

  class FolderNode {
    const resource: Resource
    var children: seq<FolderNode>
    var level: int

    constructor (folder: Resource)
      ensures resource == folder && children == [] && level == -1
    {
      resource, children, level := folder, [], -1;
    }
  }

  type Nodes = map<string, FolderNode>

  /** One node per folder name, no node shared. */
  ghost predicate NodesOf(nodes: Nodes, m: map<string, Resource>) {
    && nodes.Keys == m.Keys
    && (forall u | u in nodes :: nodes[u].resource == m[u] && m[u].name == u)
    && (forall u, v | u in nodes && v in nodes && u != v :: nodes[u] != nodes[v])
  }

  ghost predicate IsChild(nodes: Nodes, m: map<string, Resource>, u: string, node: FolderNode)
    requires nodes.Keys == m.Keys
  {
    && node.resource.name in nodes && nodes[node.resource.name] == node
    && !IsRoot(m, node.resource.name) && m[node.resource.name].folder == u
  }

  /** Children lists hold exactly the child nodes, looking only at the names in `linked`. */
  ghost predicate Linked(nodes: Nodes, m: map<string, Resource>, linked: set<string>)
    requires nodes.Keys == m.Keys
    reads nodes.Values`children
  {
    && (forall u, i | u in nodes && 0 <= i < |nodes[u].children| :: IsChild(nodes, m, u, nodes[u].children[i]))
    && (forall v | v in linked && v in m && !IsRoot(m, v) :: nodes[v] in nodes[m[v].folder].children)
  }

  method CreateNodes(folders: seq<Resource>) returns (nodes: Nodes)
    ensures NodesOf(nodes, ByName(folders))
    ensures forall u | u in nodes :: fresh(nodes[u]) && nodes[u].level == -1 && nodes[u].children == []
  {
    nodes := map[];
    for i := 0 to |folders|
      invariant NodesOf(nodes, ByName(folders[..i]))
      invariant forall u | u in nodes :: fresh(nodes[u]) && nodes[u].level == -1 && nodes[u].children == []
    {
      assert folders[..i + 1][..i] == folders[..i];
      var node := new FolderNode(folders[i]);
      nodes := nodes[folders[i].name := node];
    }
    assert folders[..|folders|] == folders;
  }

  /** Appends one node to its parent's children. */
  method LinkChild(ghost m: map<string, Resource>, nodes: Nodes, uid: string, ghost linked: set<string>)
    requires NodesOf(nodes, m) && Linked(nodes, m, linked) && uid in m && !IsRoot(m, uid)
    modifies nodes.Values`children
    ensures Linked(nodes, m, linked + {uid})
  {
    var parent := nodes[nodes[uid].resource.folder];
    label before:
    parent.children := parent.children + [nodes[uid]];
    forall u, i | u in nodes && 0 <= i < |nodes[u].children|
      ensures IsChild(nodes, m, u, nodes[u].children[i])
    {
      if i < |old@before(nodes[u].children)| {
        assert IsChild(nodes, m, u, old@before(nodes[u].children)[i]);
      }
    }
  }

  /** Links one node to its parent, or finds it to be a root. */
  method PlaceNode(ghost m: map<string, Resource>, nodes: Nodes, uid: string, ghost linked: set<string>)
    returns (root: bool)
    requires NodesOf(nodes, m) && Linked(nodes, m, linked) && uid in m
    modifies nodes.Values`children
    ensures Linked(nodes, m, linked + {uid}) && root == IsRoot(m, uid)
  {
    var parent := nodes[uid].resource.folder;
    if parent == "" {
      root := true;
    } else if parent in nodes {
      LinkChild(m, nodes, uid, linked);
      root := false;
    } else {
      root := true;
    }
  }

  /** The roots among the names looked at. */
  ghost predicate RootsAmong(m: map<string, Resource>, placed: set<string>, roots: seq<string>) {
    forall u :: u in roots <==> u in placed && u in m && IsRoot(m, u)
  }

  lemma RootsPlaced(m: map<string, Resource>, placed: set<string>, roots: seq<string>, uid: string)
    requires RootsAmong(m, placed, roots) && uid in m
    ensures RootsAmong(m, placed + {uid}, if IsRoot(m, uid) then roots + [uid] else roots)
  {
    hide IsRoot;
  }

  /** The dependency graph of the folders, and the folders with no parent in the set. */
  method BuildFolderHierarchy(folders: seq<Resource>) returns (nodes: Nodes, roots: seq<string>)
    ensures NodesOf(nodes, ByName(folders)) && Linked(nodes, ByName(folders), nodes.Keys)
    ensures forall u | u in nodes :: fresh(nodes[u]) && nodes[u].level == -1
    ensures RootsAmong(ByName(folders), nodes.Keys, roots)
  {
    nodes := CreateNodes(folders);
    ghost var m := ByName(folders);
    roots := [];
    NothingPlaced(m, nodes);
    roots := PlaceAll(m, nodes);
  }

  method PlaceAll(ghost m: map<string, Resource>, nodes: Nodes) returns (roots: seq<string>)
    requires NodesOf(nodes, m) && Linked(nodes, m, {})
    modifies nodes.Values`children
    ensures Linked(nodes, m, nodes.Keys) && RootsAmong(m, nodes.Keys, roots)
  {
    roots := [];
    var pending := nodes.Keys;
    assert nodes.Keys - pending == {};
    while pending != {}
      invariant pending <= nodes.Keys
      invariant Linked(nodes, m, nodes.Keys - pending) && RootsAmong(m, nodes.Keys - pending, roots)
    {
      hide IsRoot, Linked, RootsAmong;
      var uid :| uid in pending;
      RootsPlaced(m, nodes.Keys - pending, roots, uid);
      var root := PlaceNode(m, nodes, uid, nodes.Keys - pending);
      if root {
        roots := roots + [uid];
      }
      assert nodes.Keys - (pending - {uid}) == (nodes.Keys - pending) + {uid};
      pending := pending - {uid};
    }
    assert nodes.Keys - pending == nodes.Keys;
  }

  lemma NothingPlaced(m: map<string, Resource>, nodes: Nodes)
    requires NodesOf(nodes, m) && forall u | u in nodes :: nodes[u].children == []
    ensures Linked(nodes, m, {})
  {
  }

  /** The level of every node, as a value. */
  ghost function LevelsOf(nodes: Nodes): (levels: map<string, int>)
    reads nodes.Values`level
    ensures levels.Keys == nodes.Keys
  {
    map u | u in nodes :: nodes[u].level
  }

  /** Every folder has its depth as level, or -1 when its chain reaches no root. */
  ghost predicate Measured(m: map<string, Resource>, levels: map<string, int>)
    requires levels.Keys == m.Keys
  {
    forall u | u in levels :: if ReachesRoot(m, u) then Correct(m, u, levels[u]) else levels[u] == -1
  }

  ghost predicate Correct(m: map<string, Resource>, u: string, level: int)
    requires u in m
  {
    level >= 0 && HasDepth(m, u, level)
  }

  /** Everything under uid has its correct level. */
  ghost predicate Settled(m: map<string, Resource>, levels: map<string, int>, uid: string)
    requires levels.Keys == m.Keys
  {
    forall v, k: nat | v in m && Under(m, v, uid, k) :: Correct(m, v, levels[v])
  }

  /** A level changes only to the correct one. */
  ghost predicate Advances(m: map<string, Resource>, before: map<string, int>, after: map<string, int>)
    requires before.Keys == m.Keys == after.Keys
  {
    forall u | u in m :: after[u] == before[u] || Correct(m, u, after[u])
  }

  lemma SettledStays(m: map<string, Resource>, before: map<string, int>, after: map<string, int>, uid: string)
    requires before.Keys == m.Keys == after.Keys && Advances(m, before, after) && Settled(m, before, uid)
    ensures Settled(m, after, uid)
  {
    hide Correct, Under;
  }

  /** The children of uid, by name. */
  ghost predicate ChildrenOf(m: map<string, Resource>, uid: string, children: seq<FolderNode>) {
    && (forall i | 0 <= i < |children| ::
          children[i].resource.name in m && !IsRoot(m, children[i].resource.name)
              && m[children[i].resource.name].folder == uid)
    && (forall v | v in m && !IsRoot(m, v) && m[v].folder == uid :: exists i ::
          0 <= i < |children| && children[i].resource.name == v)
  }

  lemma LinkedChildren(m: map<string, Resource>, nodes: Nodes, uid: string)
    requires NodesOf(nodes, m) && Linked(nodes, m, nodes.Keys) && uid in m
    ensures ChildrenOf(m, uid, nodes[uid].children)
  {
    hide IsRoot;
    var children := nodes[uid].children;
    forall i | 0 <= i < |children|
      ensures children[i].resource.name in m && !IsRoot(m, children[i].resource.name)
              && m[children[i].resource.name].folder == uid
    {
      assert IsChild(nodes, m, uid, children[i]);
    }
    forall v | v in m && !IsRoot(m, v) && m[v].folder == uid
      ensures exists i :: 0 <= i < |children| && children[i].resource.name == v
    {
      assert nodes[v] in nodes[m[v].folder].children;
      var i :| 0 <= i < |children| && children[i] == nodes[v];
    }
  }

  lemma SettledByChildren(m: map<string, Resource>, levels: map<string, int>, uid: string, children: seq<FolderNode>)
    requires levels.Keys == m.Keys && uid in m && ChildrenOf(m, uid, children) && Correct(m, uid, levels[uid])
    requires forall i | 0 <= i < |children| :: Settled(m, levels, children[i].resource.name)
    ensures Settled(m, levels, uid)
  {
    hide Correct, IsRoot;
    forall v, k: nat | v in m && Under(m, v, uid, k)
      ensures Correct(m, v, levels[v])
    {
      if k > 0 {
        var child := UnderThroughChild(m, v, uid, k);
        var i :| 0 <= i < |children| && children[i].resource.name == child;
        assert Settled(m, levels, child);
      }
    }
  }

  /** What is settled once the first i children are traversed. */
  ghost predicate TraversedTo(m: map<string, Resource>, start: map<string, int>, levels: map<string, int>, uid: string,
                              children: seq<FolderNode>, i: nat)
    requires start.Keys == m.Keys == levels.Keys && uid in m && i <= |children|
  {
    && Advances(m, start, levels) && Correct(m, uid, levels[uid])
    && forall j | 0 <= j < i :: Settled(m, levels, children[j].resource.name)
  }

  lemma TraversedOneMore(m: map<string, Resource>, start: map<string, int>, before: map<string, int>,
                         after: map<string, int>, uid: string, children: seq<FolderNode>, i: nat)
    requires start.Keys == m.Keys == before.Keys == after.Keys && uid in m && i < |children|
    requires TraversedTo(m, start, before, uid, children, i)
    requires Advances(m, before, after) && Settled(m, after, children[i].resource.name)
    ensures TraversedTo(m, start, after, uid, children, i + 1)
  {
    hide Correct, Settled;
    forall j | 0 <= j < i ensures Settled(m, after, children[j].resource.name) {
      SettledStays(m, before, after, children[j].resource.name);
    }
  }

  lemma ChildIsDeeper(m: map<string, Resource>, uid: string, level: nat, children: seq<FolderNode>, i: nat)
    requires uid in m && HasDepth(m, uid, level) && ChildrenOf(m, uid, children) && i < |children|
    ensures children[i].resource.name in m && HasDepth(m, children[i].resource.name, level + 1)
  {
  }

  lemma FirstLevel(m: map<string, Resource>, start: map<string, int>, uid: string, level: nat,
                   children: seq<FolderNode>)
    requires start.Keys == m.Keys && uid in m && HasDepth(m, uid, level)
    ensures start[uid := level].Keys == m.Keys && TraversedTo(m, start, start[uid := level], uid, children, 0)
  {
    hide HasDepth;
  }

  lemma LevelSet(nodes: Nodes, m: map<string, Resource>, start: map<string, int>, uid: string, level: nat)
    requires NodesOf(nodes, m) && uid in m && start.Keys == m.Keys
    requires forall u | u in nodes :: nodes[u].level == if u == uid then level else start[u]
    ensures LevelsOf(nodes) == start[uid := level]
  {
  }

  method SetLevel(ghost m: map<string, Resource>, nodes: Nodes, uid: string, level: nat)
    requires NodesOf(nodes, m) && uid in m
    modifies nodes.Values`level
    ensures LevelsOf(nodes) == old(LevelsOf(nodes))[uid := level]
  {
    ghost var start := LevelsOf(nodes);
    nodes[uid].level := level;
    LevelSet(nodes, m, start, uid, level);
  }

  /** The recursive closure of assignLevels: sets the level of uid and of everything under it. */
  method Traverse(ghost m: map<string, Resource>, nodes: Nodes, uid: string, level: nat)
    requires NodesOf(nodes, m) && Linked(nodes, m, nodes.Keys)
    requires uid in m && HasDepth(m, uid, level)
    modifies nodes.Values`level
    ensures Advances(m, old(LevelsOf(nodes)), LevelsOf(nodes))
    ensures Settled(m, LevelsOf(nodes), uid)
    decreases |m| - level
  {
    hide HasDepth, Linked, IsRoot, Advances, Settled, Correct, ChildrenOf, TraversedTo, LevelsOf;
    DepthIsBounded(m, uid, level);
    LinkedChildren(m, nodes, uid);
    ghost var start := LevelsOf(nodes);
    var node := nodes[uid];
    SetLevel(m, nodes, uid, level);
    FirstLevel(m, start, uid, level, node.children);
    for i := 0 to |node.children|
      invariant TraversedTo(m, start, LevelsOf(nodes), uid, node.children, i)
    {
      hide NodesOf;
      ghost var before := LevelsOf(nodes);
      ChildIsDeeper(m, uid, level, node.children, i);
      Traverse(m, nodes, node.children[i].resource.name, level + 1);
      TraversedOneMore(m, start, before, LevelsOf(nodes), uid, node.children, i);
    }
    AllTraversed(m, start, LevelsOf(nodes), uid, node.children);
  }

  lemma AllTraversed(m: map<string, Resource>, start: map<string, int>, levels: map<string, int>, uid: string,
                     children: seq<FolderNode>)
    requires start.Keys == m.Keys == levels.Keys && uid in m && ChildrenOf(m, uid, children)
    requires TraversedTo(m, start, levels, uid, children, |children|)
    ensures Advances(m, start, levels) && Settled(m, levels, uid)
  {
    hide Correct, Settled, ChildrenOf;
    SettledByChildren(m, levels, uid, children);
  }

  /** Levels from every root: a folder whose chain reaches a root gets its depth, the others keep -1. */
  method AssignLevels(ghost m: map<string, Resource>, nodes: Nodes, roots: seq<string>)
    requires NodesOf(nodes, m) && Linked(nodes, m, nodes.Keys)
    requires forall u | u in nodes :: nodes[u].level == -1
    requires RootsAmong(m, nodes.Keys, roots)
    modifies nodes.Values`level
    ensures Measured(m, LevelsOf(nodes))
  {
    hide Linked, IsRoot, Correct, Settled, HasDepth, RootsAmong;
    ghost var start := LevelsOf(nodes);
    for i := 0 to |roots|
      invariant Advances(m, start, LevelsOf(nodes))
      invariant forall j | 0 <= j < i :: Settled(m, LevelsOf(nodes), roots[j])
    {
      hide LevelsOf, Advances;
      ghost var before := LevelsOf(nodes);
      RootHasDepth(m, nodes.Keys, roots, i);
      Traverse(m, nodes, roots[i], 0);
      forall j | 0 <= j < i ensures Settled(m, LevelsOf(nodes), roots[j]) {
        SettledStays(m, before, LevelsOf(nodes), roots[j]);
      }
      AdvancesThen(m, start, before, LevelsOf(nodes));
    }
    RootsSettleAll(m, start, LevelsOf(nodes), roots);
  }

  lemma RootHasDepth(m: map<string, Resource>, placed: set<string>, roots: seq<string>, i: nat)
    requires RootsAmong(m, placed, roots) && i < |roots|
    ensures roots[i] in m && HasDepth(m, roots[i], 0)
  {
    assert roots[i] in roots;
  }

  lemma AdvancesThen(m: map<string, Resource>, a: map<string, int>, b: map<string, int>, c: map<string, int>)
    requires a.Keys == m.Keys == b.Keys == c.Keys && Advances(m, a, b) && Advances(m, b, c)
    ensures Advances(m, a, c)
  {
    hide Correct;
  }

  lemma RootsSettleAll(m: map<string, Resource>, start: map<string, int>, levels: map<string, int>, roots: seq<string>)
    requires start.Keys == m.Keys == levels.Keys && Advances(m, start, levels)
             && (forall u | u in start :: start[u] == -1)
    requires RootsAmong(m, m.Keys, roots) && forall j | 0 <= j < |roots| :: Settled(m, levels, roots[j])
    ensures Measured(m, levels)
  {
    hide IsRoot;
    forall u | u in m && ReachesRoot(m, u)
      ensures Correct(m, u, levels[u])
    {
      var d: nat :| HasDepth(m, u, d);
      var root := RootAbove(m, u, d);
      assert root in roots;
      var j :| 0 <= j < |roots| && roots[j] == root;
      assert Settled(m, levels, root);
    }
  }

  // ---------------------------------------------------------------------------------------------
  // Grouping by level
  // ---------------------------------------------------------------------------------------------

  datatype Sorted = Levels(levels: seq<seq<Resource>>) | Circular(name: string)

  /** Level d of the grouping holds resources of depth d, each once. */
  ghost predicate GroupsByDepth(m: map<string, Resource>, levels: seq<seq<Resource>>) {
    && (forall d, i | 0 <= d < |levels| && 0 <= i < |levels[d]| ::
          levels[d][i].name in m && m[levels[d][i].name] == levels[d][i] && HasDepth(m, levels[d][i].name, d))
    && (forall d, i, j | 0 <= d < |levels| && 0 <= i < j < |levels[d]| :: levels[d][i] != levels[d][j])
  }

  ghost predicate Holds(levels: seq<seq<Resource>>, r: Resource) {
    exists d :: 0 <= d < |levels| && r in levels[d]
  }

  /** Level d holds exactly the folders of depth d, each once, and no level is empty. */
  ghost predicate GroupedByDepth(m: map<string, Resource>, levels: seq<seq<Resource>>) {
    && GroupsByDepth(m, levels)
    && (forall u | u in m :: Holds(levels, m[u]))
    && (forall d | 0 <= d < |levels| :: levels[d] != [])
  }

  /** The folders looked at stand on their levels. */
  ghost predicate GroupedSoFar(m: map<string, Resource>, levels: seq<seq<Resource>>, pending: set<string>) {
    && GroupsByDepth(m, levels)
    && (forall d, i | 0 <= d < |levels| && 0 <= i < |levels[d]| :: levels[d][i].name !in pending)
    && (forall u | u in m && u !in pending :: Holds(levels, m[u]))
  }

  lemma GroupOneMore(m: map<string, Resource>, levels: seq<seq<Resource>>, pending: set<string>, uid: string, d: nat)
    requires GroupedSoFar(m, levels, pending) && uid in pending && uid in m && m[uid].name == uid
    requires d < |levels| && HasDepth(m, uid, d)
    ensures GroupedSoFar(m, levels[d := levels[d] + [m[uid]]], pending - {uid})
  {
    hide HasDepth;
    var after := levels[d := levels[d] + [m[uid]]];
    forall u | u in m && u !in pending - {uid} ensures Holds(after, m[u]) {
      if u == uid {
        assert m[uid] in after[d];
      } else {
        assert Holds(levels, m[u]);
        var e :| 0 <= e < |levels| && m[u] in levels[e];
        assert m[u] in after[e];
      }
    }
  }

  lemma NothingGrouped(m: map<string, Resource>, n: nat)
    ensures GroupedSoFar(m, seq(n, _ => []), m.Keys)
  {
  }

  lemma LevelIsDepth(m: map<string, Resource>, nodes: Nodes, uid: string)
    requires NodesOf(nodes, m) && Measured(m, LevelsOf(nodes)) && uid in m
    ensures if nodes[uid].level < 0 then !ReachesRoot(m, uid) else HasDepth(m, uid, nodes[uid].level)
    ensures nodes[uid].resource == m[uid] && m[uid].name == uid
  {
    assert LevelsOf(nodes)[uid] == nodes[uid].level;
  }

  method GroupByLevel(ghost m: map<string, Resource>, nodes: Nodes, maxLevel: nat) returns (sorted: Sorted)
    requires NodesOf(nodes, m)
    requires forall u | u in nodes :: nodes[u].level <= maxLevel
    requires Measured(m, LevelsOf(nodes))
    ensures match sorted
            case Levels(levels) => |levels| == maxLevel + 1 && GroupedSoFar(m, levels, {})
            case Circular(name) => name in m && !ReachesRoot(m, name)
  {
    hide GroupedSoFar, Measured, HasDepth, ReachesRoot, LevelsOf;
    var levels: seq<seq<Resource>> := seq(maxLevel + 1, _ => []);
    var pending := nodes.Keys;
    NothingGrouped(m, maxLevel + 1);
    while pending != {}
      invariant pending <= nodes.Keys
      invariant |levels| == maxLevel + 1 && GroupedSoFar(m, levels, pending)
    {
      var uid :| uid in pending;
      var node := nodes[uid];
      LevelIsDepth(m, nodes, uid);
      if node.level < 0 {
        return Circular(node.resource.name);
      }
      GroupOneMore(m, levels, pending, uid, node.level);
      levels := levels[node.level := levels[node.level] + [node.resource]];
      pending := pending - {uid};
    }
    return Levels(levels);
  }

  lemma NoLevelIsEmpty(m: map<string, Resource>, levels: seq<seq<Resource>>, deepest: string)
    requires GroupsByDepth(m, levels) && forall u | u in m :: Holds(levels, m[u])
    requires forall u | u in m :: m[u].name == u
    requires |levels| > 0 && deepest in m && (ReachesRoot(m, deepest) ==> HasDepth(m, deepest, |levels| - 1))
    ensures GroupedByDepth(m, levels) && !HasCycle(m)
  {
    GroupingRulesOutCycles(m, levels);
    assert Holds(levels, m[deepest]);
    assert ReachesRoot(m, deepest);
    forall d | 0 <= d < |levels| ensures levels[d] != [] {
      var v := AncestorAtDepth(m, deepest, |levels| - 1, d);
      assert Holds(levels, m[v]);
      var e :| 0 <= e < |levels| && m[v] in levels[e];
      DepthIsUnique(m, v, d, e);
    }
  }

  method MeasureFolders(folders: seq<Resource>) returns (nodes: Nodes)
    ensures NodesOf(nodes, ByName(folders)) && Measured(ByName(folders), LevelsOf(nodes))
  {
    var roots;
    nodes, roots := BuildFolderHierarchy(folders);
    AssignLevels(ByName(folders), nodes, roots);
  }

  ghost predicate SortedOrCircular(m: map<string, Resource>, sorted: Sorted) {
    match sorted
    case Levels(levels) => GroupedByDepth(m, levels) && !HasCycle(m)
    case Circular(name) => name in m && !ReachesRoot(m, name) && HasCycle(m)
  }

  lemma GroupingIsExact(m: map<string, Resource>, sorted: Sorted, deepest: string)
    requires forall u | u in m :: m[u].name == u
    requires match sorted
             case Levels(levels) =>
               && GroupsByDepth(m, levels) && (forall u | u in m :: Holds(levels, m[u])) && |levels| > 0 && deepest in m
               && (ReachesRoot(m, deepest) ==> HasDepth(m, deepest, |levels| - 1))
             case Circular(name) => name in m && !ReachesRoot(m, name)
    ensures SortedOrCircular(m, sorted)
  {
    match sorted
    case Levels(levels) => NoLevelIsEmpty(m, levels, deepest);
    case Circular(name) => WalkFindsCycle(m, name, {});
  }

  /**
   Folders grouped by depth; the call fails, naming a folder whose parent chain reaches no root,
   exactly when the parent annotations inside the set form a cycle.
   */
  method SortFoldersByDependency(folders: seq<Resource>) returns (sorted: Sorted)
    ensures SortedOrCircular(ByName(folders), sorted)
  {
    if folders == [] {
      return Levels([]);
    }
    hide NodesOf, Measured, SortedOrCircular, GroupedSoFar, HasDepth, ReachesRoot;
    ghost var m := ByName(folders);
    var nodes := MeasureFolders(folders);
    var maxLevel, deepest := MaxLevel(nodes, folders[0].name);
    sorted := GroupByLevel(m, nodes, maxLevel);
    LevelIsDepth(m, nodes, deepest);
    GroupingIsExact(m, sorted, deepest);
  }

  /** The largest level, counted from 0, and a folder at that level (`any` when none is above 0). */
  method MaxLevel(nodes: Nodes, ghost any: string) returns (maxLevel: nat, ghost deepest: string)
    requires any in nodes
    ensures forall u | u in nodes :: nodes[u].level <= maxLevel
    ensures deepest in nodes && (maxLevel == 0 || nodes[deepest].level == maxLevel)
  {
    maxLevel, deepest := 0, any;
    var pending := nodes.Keys;
    while pending != {}
      invariant pending <= nodes.Keys
      invariant forall u | u in nodes && u !in pending :: nodes[u].level <= maxLevel
      invariant deepest in nodes && (maxLevel == 0 || nodes[deepest].level == maxLevel)
    {
      var uid :| uid in pending;
      if nodes[uid].level > maxLevel {
        maxLevel, deepest := nodes[uid].level, uid;
      }
      pending := pending - {uid};
    }
  }

  // ---------------------------------------------------------------------------------------------
  // What the levels guarantee the push
  // ---------------------------------------------------------------------------------------------

  lemma GroupingRulesOutCycles(m: map<string, Resource>, levels: seq<seq<Resource>>)
    requires GroupsByDepth(m, levels) && forall u | u in m :: Holds(levels, m[u])
    requires forall u | u in m :: m[u].name == u
    ensures !HasCycle(m)
  {
    forall u, k: nat | u in m && k > 0 ensures !Under(m, u, u, k) {
      if Under(m, u, u, k) {
        assert Holds(levels, m[u]);
        var d :| 0 <= d < |levels| && m[u] in levels[d];
        DepthAlongChain(m, u, u, k, d);
        DepthIsUnique(m, u, d, d - k);
      }
    }
  }

  /** The levels are a partition, and a parent in the set stands exactly one level before its child. */
  lemma ParentOneLevelEarlier(m: map<string, Resource>, levels: seq<seq<Resource>>, d: nat, r: Resource)
    requires GroupedByDepth(m, levels) && (forall u | u in m :: m[u].name == u)
    requires d < |levels| && r in levels[d]
    ensures forall e | 0 <= e < |levels| :: r in levels[e] <==> e == d
    ensures r.folder != "" && r.folder in m ==> d > 0 && m[r.folder] in levels[d - 1]
    ensures r.folder == "" || r.folder !in m ==> d == 0
  {
    forall e | 0 <= e < |levels| && r in levels[e] ensures e == d {
      DepthIsUnique(m, r.name, d, e);
    }
    if d > 0 {
      assert Holds(levels, m[r.folder]);
      var e :| 0 <= e < |levels| && m[r.folder] in levels[e];
      DepthIsUnique(m, r.folder, d - 1, e);
    }
  }
}
