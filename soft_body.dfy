/**
 * The Bullet soft body of modules/bullet/soft_body_bullet.cpp: the list of
 * pinned nodes and the node and total mass rules built on it, and the way
 * `set_trimesh_body_shape` merges equal vertices of a visual mesh into the
 * physics nodes and rewrites its triangles for them.
 *
 * The Bullet body itself is reduced to whether it exists; the masses it
 * stores and the calls that create, set up and destroy it are not modelled.
 */
module SoftBody {
  import opened Geometry

  /** The highest position of `n` in `s`, or -1: what the backwards search finds. */
  function LastIndexOf(s: seq<int>, n: int): (i: int)
    ensures -1 <= i < |s|
    ensures i == -1 <==> n !in s
    ensures i >= 0 ==> s[i] == n && forall j :: i < j < |s| ==> s[j] != n
  {
    if s == [] then -1
    else if s[|s| - 1] == n then |s| - 1
    else LastIndexOf(s[..|s| - 1], n)
  }

  /** A position holding `n` (or -1) with no `n` after it is what `LastIndexOf` finds. */
  lemma {:induction false} LastIndexOfIs(s: seq<int>, n: int, i: int)
    requires -1 <= i < |s| && (i >= 0 ==> s[i] == n)
    requires forall j :: i < j < |s| ==> s[j] != n
    ensures LastIndexOf(s, n) == i
  {
    if s != [] && s[|s| - 1] != n {
      LastIndexOfIs(s[..|s| - 1], n, i);
    }
  }

  predicate NoDuplicates(s: seq<int>)
  {
    forall i, j :: 0 <= i < j < |s| ==> s[i] != s[j]
  }

  /** `s` without position `i`. */
  function RemoveAt(s: seq<int>, i: nat): seq<int>
    requires i < |s|
  {
    s[..i] + s[i + 1..]
  }

  /** Removing the only occurrence of `n` from a list without duplicates leaves every other element and nothing else, still without duplicates. */
  lemma RemoveOnly(s: seq<int>, n: int)
    requires NoDuplicates(s) && n in s
    ensures var r := RemoveAt(s, LastIndexOf(s, n));
      && NoDuplicates(r)
      && |r| == |s| - 1
      && forall x :: x in r <==> x in s && x != n
  {
    var i := LastIndexOf(s, n);
    var r := RemoveAt(s, i);
    forall x
      ensures x in r <==> x in s && x != n
    {
      if x in r {
        var k :| 0 <= k < |r| && r[k] == x;
        if k < i {
          assert s[k] == x;
        } else {
          assert s[k + 1] == x;
        }
      }
      if x in s && x != n {
        var k :| 0 <= k < |s| && s[k] == x;
        if k < i {
          assert r[k] == x;
        } else {
          assert k != i;
          assert r[k - 1] == x;
        }
      }
    }
    forall a, b | 0 <= a < b < |r|
      ensures r[a] != r[b]
    {
      var a' := if a < i then a else a + 1;
      var b' := if b < i then b else b + 1;
      assert r[a] == s[a'] && r[b] == s[b'];
    }
  }

  class SoftBodyBullet {
    var pinnedNodes: seq<int>
    var totalMass: real
    /** Whether `bt_soft_body` exists. */
    var hasBody: bool
    /** `indices_table`: for each physics node, the visual vertices merged into it. */
    var indicesTable: seq<seq<nat>>

    /** No node is pinned twice. */
    ghost predicate Valid()
      reads this
    {
      NoDuplicates(pinnedNodes)
    }

    constructor ()
      ensures Valid()
      ensures pinnedNodes == [] && totalMass == 1.0 && !hasBody && indicesTable == []
    {
      pinnedNodes := [];
      totalMass := 1.0;
      hasBody := false;
      indicesTable := [];
    }

    /** `search_node_pinned`: the highest position holding the node, or -1. */
    method SearchNodePinned(n: int) returns (id: int)
      ensures id == LastIndexOf(pinnedNodes, n)
    {
      var s := pinnedNodes;
      var i := |s| - 1;
      while 0 <= i
        invariant -1 <= i < |s|
        invariant forall j :: i < j < |s| ==> s[j] != n
      {
        if n == s[i] {
          LastIndexOfIs(s, n, i);
          return i;
        }
        i := i - 1;
      }
      LastIndexOfIs(s, n, -1);
      return -1;
    }

    /** `pin_node`: the node is appended only when it is not pinned yet. */
    method PinNode(n: int)
      requires Valid()
      modifies this`pinnedNodes
      ensures Valid()
      ensures n in old(pinnedNodes) ==> pinnedNodes == old(pinnedNodes)
      ensures n !in old(pinnedNodes) ==> pinnedNodes == old(pinnedNodes) + [n]
    {
      var id := SearchNodePinned(n);
      if id == -1 {
        pinnedNodes := pinnedNodes + [n];
      }
    }

    /** `unpin_node`: the node's position is removed when it is pinned; otherwise nothing changes. */
    method UnpinNode(n: int)
      requires Valid()
      modifies this`pinnedNodes
      ensures Valid()
      ensures n !in old(pinnedNodes) ==> pinnedNodes == old(pinnedNodes)
      ensures n in old(pinnedNodes) ==> pinnedNodes == RemoveAt(old(pinnedNodes), LastIndexOf(old(pinnedNodes), n))
      ensures forall x :: x in pinnedNodes <==> x in old(pinnedNodes) && x != n
    {
      var id := SearchNodePinned(n);
      if id != -1 {
        RemoveOnly(pinnedNodes, n);
        pinnedNodes := RemoveAt(pinnedNodes, id);
      }
    }

    /** `set_node_mass`: a mass of zero or less pins the node, any other unpins it. */
    method SetNodeMass(n: int, mass: real)
      requires Valid()
      modifies this`pinnedNodes
      ensures Valid()
      ensures mass <= 0.0 ==> n in pinnedNodes
      ensures mass > 0.0 ==> n !in pinnedNodes
      ensures forall x :: x != n ==> (x in pinnedNodes <==> x in old(pinnedNodes))
    {
      if 0.0 >= mass {
        PinNode(n);
      } else {
        UnpinNode(n);
      }
    }

    /** `get_node_mass`: the body's mass when there is a body; otherwise 0 for a pinned node and 1 for any other. */
    function GetNodeMass(n: int, bodyMass: real): (m: real)
      reads this
      ensures hasBody ==> m == bodyMass
      ensures !hasBody && n in pinnedNodes ==> m == 0.0
      ensures !hasBody && n !in pinnedNodes ==> m == 1.0
    {
      if hasBody then bodyMass
      else if -1 == LastIndexOf(pinnedNodes, n) then 1.0 else 0.0
    }

    /** `reset_all_node_mass`: no node stays pinned. */
    method ResetAllNodeMass()
      modifies this`pinnedNodes
      ensures Valid() && pinnedNodes == []
    {
      pinnedNodes := [];
    }

    /** `set_total_mass`: a mass of zero or less becomes 1. */
    method SetTotalMass(mass: real)
      modifies this`totalMass
      ensures totalMass > 0.0
      ensures mass > 0.0 ==> totalMass == mass
      ensures mass <= 0.0 ==> totalMass == 1.0
    {
      var m := mass;
      if 0.0 >= m {
        m := 1.0;
      }
      totalMass := m;
    }

    /**
     * `set_trimesh_body_shape`: the old body goes, equal vertices merge into
     * one physics node each, and a new body is built from the nodes and the
     * rewound triangles; the result is the nodes and the triangles.
     */
    method SetTrimeshBodyShape(indices: seq<int>, vertices: seq<Vector3>) returns (nodes: seq<Vector3>, triangles: seq<nat>)
      requires forall k :: 0 <= k < |indices| / 3 * 3 ==> 0 <= indices[k] < |vertices|
      modifies this`indicesTable, this`hasBody
      ensures hasBody
      ensures Merged(vertices, indicesTable, nodes)
      ensures exists ids :: IdsOf(vertices, indicesTable, ids) && Rewound(indices, ids, triangles)
    {
      hasBody := false;
      var ids, table := MergeVertices(vertices);
      indicesTable := table;
      nodes := NodePositions(vertices, table);
      triangles := RewindTriangles(indices, ids);
      hasBody := true;
    }
  }

  // ---- Merging the vertices of a visual mesh ----

  predicate Ascending(s: seq<nat>)
  {
    forall a, b :: 0 <= a < b < |s| ==> s[a] < s[b]
  }

  /** Each of the first `n` vertices is a key of `unique`, mapped to its id, a node of `table`. */
  ghost predicate IdsKnown(vertices: seq<Vector3>, n: nat, unique: map<Vector3, nat>, table: seq<seq<nat>>, ids: seq<nat>)
  {
    && n <= |vertices| && |ids| == n
    && forall i :: 0 <= i < n ==> vertices[i] in unique && unique[vertices[i]] == ids[i] && ids[i] < |table|
  }

  /** Each key of `unique` maps to a node whose first vertex is that key. */
  ghost predicate KeysFirst(vertices: seq<Vector3>, unique: map<Vector3, nat>, table: seq<seq<nat>>)
  {
    forall v :: v in unique ==>
      && unique[v] < |table| && |table[unique[v]]| > 0
      && table[unique[v]][0] < |vertices| && vertices[table[unique[v]][0]] == v
  }

  /** Every node lists at least one vertex, in ascending order. */
  ghost predicate Lists(table: seq<seq<nat>>)
  {
    forall id :: 0 <= id < |table| ==> |table[id]| > 0 && Ascending(table[id])
  }

  /** A node lists only vertices among the first `n` whose id is that node. */
  ghost predicate ListsMatch(n: nat, table: seq<seq<nat>>, ids: seq<nat>)
  {
    forall id, k :: 0 <= id < |table| && 0 <= k < |table[id]| ==>
      table[id][k] < n && table[id][k] < |ids| && ids[table[id][k]] == id
  }

  /** Each of the first `n` vertices is listed by its node. */
  ghost predicate ListsCover(n: nat, table: seq<seq<nat>>, ids: seq<nat>)
  {
    forall i :: 0 <= i < n && i < |ids| ==> ids[i] < |table| && i in table[ids[i]]
  }

  /** Nodes are numbered in the order of their first vertices. */
  ghost predicate FirstsAscend(table: seq<seq<nat>>)
  {
    forall a, b :: 0 <= a < b < |table| && |table[a]| > 0 && |table[b]| > 0 ==> table[a][0] < table[b][0]
  }

  /** The state of the first loop after `n` vertices. */
  ghost predicate MergedSoFar(vertices: seq<Vector3>, n: nat, unique: map<Vector3, nat>, table: seq<seq<nat>>, ids: seq<nat>)
  {
    && IdsKnown(vertices, n, unique, table, ids)
    && KeysFirst(vertices, unique, table)
    && Lists(table)
    && ListsMatch(n, table, ids)
    && ListsCover(n, table, ids)
    && FirstsAscend(table)
  }

  /**
   * The relation between the vertices, `indices_table` and the per-vertex
   * node ids once all vertices are merged: equal vertices share a node and
   * different ones do not; a node lists, in ascending order, exactly the
   * vertices with its id; nodes are numbered by first occurrence.
   */
  ghost predicate IdsOf(vertices: seq<Vector3>, table: seq<seq<nat>>, ids: seq<nat>)
  {
    && |ids| == |vertices|
    && (forall i :: 0 <= i < |ids| ==> ids[i] < |table|)
    && (forall i, j :: 0 <= i < |ids| && 0 <= j < |ids| ==> (vertices[i] == vertices[j] <==> ids[i] == ids[j]))
    && (forall id :: 0 <= id < |table| ==> |table[id]| > 0 && Ascending(table[id]))
    && (forall id, k :: 0 <= id < |table| && 0 <= k < |table[id]| ==> table[id][k] < |ids| && ids[table[id][k]] == id)
    && (forall i :: 0 <= i < |ids| ==> i in table[ids[i]])
    && (forall a, b :: 0 <= a < b < |table| ==> table[a][0] < table[b][0])
  }

  /** The nodes are the distinct vertices, each at the position of the first vertex merged into it. */
  ghost predicate Merged(vertices: seq<Vector3>, table: seq<seq<nat>>, nodes: seq<Vector3>)
  {
    && |nodes| == |table|
    && (forall id :: 0 <= id < |table| ==> |table[id]| > 0 && table[id][0] < |vertices| && nodes[id] == vertices[table[id][0]])
    && (forall a, b :: 0 <= a < b < |nodes| ==> nodes[a] != nodes[b])
    && (forall i :: 0 <= i < |vertices| ==> vertices[i] in nodes)
  }

  // Known vertex: `table[id]` gains `n`, the ids gain `id`.

  lemma KnownIds(vertices: seq<Vector3>, n: nat, unique: map<Vector3, nat>, table: seq<seq<nat>>, ids: seq<nat>, id: nat, table': seq<seq<nat>>)
    requires IdsKnown(vertices, n, unique, table, ids) && n < |vertices|
    requires vertices[n] in unique && id == unique[vertices[n]] && id < |table| && |table'| == |table|
    ensures IdsKnown(vertices, n + 1, unique, table', ids + [id])
  {
  }

  lemma KnownKeys(vertices: seq<Vector3>, unique: map<Vector3, nat>, table: seq<seq<nat>>, id: nat, n: nat)
    requires KeysFirst(vertices, unique, table) && id < |table|
    ensures KeysFirst(vertices, unique, table[id := table[id] + [n]])
  {
  }

  lemma KnownLists(table: seq<seq<nat>>, id: nat, n: nat, ids: seq<nat>)
    requires Lists(table) && ListsMatch(n, table, ids) && id < |table|
    ensures Lists(table[id := table[id] + [n]])
  {
    var row := table[id] + [n];
    assert Ascending(table[id]);
    forall a, b | 0 <= a < b < |row|
      ensures row[a] < row[b]
    {
      if b == |table[id]| {
        assert row[a] == table[id][a];
      } else {
        assert row[a] == table[id][a] && row[b] == table[id][b];
      }
    }
  }

  lemma KnownMatch(n: nat, table: seq<seq<nat>>, ids: seq<nat>, id: nat)
    requires ListsMatch(n, table, ids) && |ids| == n && id < |table|
    ensures ListsMatch(n + 1, table[id := table[id] + [n]], ids + [id])
  {
  }

  lemma KnownCover(n: nat, table: seq<seq<nat>>, ids: seq<nat>, id: nat)
    requires ListsCover(n, table, ids) && |ids| == n && id < |table|
    ensures ListsCover(n + 1, table[id := table[id] + [n]], ids + [id])
  {
    var table' := table[id := table[id] + [n]];
    var ids' := ids + [id];
    forall i | 0 <= i < n + 1 && i < |ids'|
      ensures ids'[i] < |table'| && i in table'[ids'[i]]
    {
      if i < n {
        assert ids'[i] == ids[i] && i in table[ids[i]];
      }
    }
  }

  lemma KnownFirsts(table: seq<seq<nat>>, id: nat, n: nat)
    requires Lists(table) && FirstsAscend(table) && id < |table|
    ensures FirstsAscend(table[id := table[id] + [n]])
  {
    var table' := table[id := table[id] + [n]];
    forall a, b | 0 <= a < b < |table'| && |table'[a]| > 0 && |table'[b]| > 0
      ensures table'[a][0] < table'[b][0]
    {
      assert table'[a][0] == table[a][0] && table'[b][0] == table[b][0];
    }
  }

  // New vertex: a node `[n]` is appended, the vertex maps to it.

  lemma NewIds(vertices: seq<Vector3>, n: nat, unique: map<Vector3, nat>, table: seq<seq<nat>>, ids: seq<nat>)
    requires IdsKnown(vertices, n, unique, table, ids) && n < |vertices| && vertices[n] !in unique
    ensures IdsKnown(vertices, n + 1, unique[vertices[n] := |table|], table + [[n]], ids + [|table|])
  {
    var unique' := unique[vertices[n] := |table|];
    var ids' := ids + [|table|];
    forall i | 0 <= i < n + 1
      ensures vertices[i] in unique' && unique'[vertices[i]] == ids'[i] && ids'[i] < |table| + 1
    {
      if i < n {
        assert vertices[i] != vertices[n];
      }
    }
  }

  lemma NewKeys(vertices: seq<Vector3>, n: nat, unique: map<Vector3, nat>, table: seq<seq<nat>>)
    requires KeysFirst(vertices, unique, table) && n < |vertices|
    ensures KeysFirst(vertices, unique[vertices[n] := |table|], table + [[n]])
  {
    var unique' := unique[vertices[n] := |table|];
    var table' := table + [[n]];
    forall v | v in unique'
      ensures && unique'[v] < |table'| && |table'[unique'[v]]| > 0
              && table'[unique'[v]][0] < |vertices| && vertices[table'[unique'[v]][0]] == v
    {
      if v != vertices[n] {
        assert table'[unique[v]] == table[unique[v]];
      }
    }
  }

  lemma NewMatch(n: nat, table: seq<seq<nat>>, ids: seq<nat>)
    requires ListsMatch(n, table, ids) && |ids| == n
    ensures ListsMatch(n + 1, table + [[n]], ids + [|table|])
  {
  }

  lemma NewCover(n: nat, table: seq<seq<nat>>, ids: seq<nat>)
    requires ListsCover(n, table, ids) && |ids| == n
    ensures ListsCover(n + 1, table + [[n]], ids + [|table|])
  {
    var table' := table + [[n]];
    var ids' := ids + [|table|];
    forall i | 0 <= i < n + 1 && i < |ids'|
      ensures ids'[i] < |table'| && i in table'[ids'[i]]
    {
      if i < n {
        assert ids'[i] == ids[i] && i in table[ids[i]];
        assert table'[ids[i]] == table[ids[i]];
      }
    }
  }

  lemma NewFirsts(table: seq<seq<nat>>, n: nat, ids: seq<nat>)
    requires Lists(table) && ListsMatch(n, table, ids) && FirstsAscend(table)
    ensures FirstsAscend(table + [[n]])
  {
    var table' := table + [[n]];
    forall a, b | 0 <= a < b < |table'| && |table'[a]| > 0 && |table'[b]| > 0
      ensures table'[a][0] < table'[b][0]
    {
      assert table'[a] == table[a];
      if b == |table| {
        assert table[a][0] < n;
      } else {
        assert table'[b] == table[b];
      }
    }
  }

  lemma MergeStepKnown(vertices: seq<Vector3>, n: nat, unique: map<Vector3, nat>, table: seq<seq<nat>>, ids: seq<nat>)
    requires n < |vertices| && MergedSoFar(vertices, n, unique, table, ids)
    requires vertices[n] in unique
    ensures var id := unique[vertices[n]];
      MergedSoFar(vertices, n + 1, unique, table[id := table[id] + [n]], ids + [id])
  {
    var id := unique[vertices[n]];
    KnownIds(vertices, n, unique, table, ids, id, table[id := table[id] + [n]]);
    KnownKeys(vertices, unique, table, id, n);
    KnownLists(table, id, n, ids);
    KnownMatch(n, table, ids, id);
    KnownCover(n, table, ids, id);
    KnownFirsts(table, id, n);
  }

  lemma MergeStepNew(vertices: seq<Vector3>, n: nat, unique: map<Vector3, nat>, table: seq<seq<nat>>, ids: seq<nat>)
    requires n < |vertices| && MergedSoFar(vertices, n, unique, table, ids)
    requires vertices[n] !in unique
    ensures MergedSoFar(vertices, n + 1, unique[vertices[n] := |table|], table + [[n]], ids + [|table|])
  {
    NewIds(vertices, n, unique, table, ids);
    NewKeys(vertices, n, unique, table);
    NewMatch(n, table, ids);
    NewCover(n, table, ids);
    NewFirsts(table, n, ids);
  }

  lemma MergeDone(vertices: seq<Vector3>, unique: map<Vector3, nat>, table: seq<seq<nat>>, ids: seq<nat>)
    requires MergedSoFar(vertices, |vertices|, unique, table, ids)
    ensures IdsOf(vertices, table, ids)
  {
    forall i, j | 0 <= i < |ids| && 0 <= j < |ids| && ids[i] == ids[j]
      ensures vertices[i] == vertices[j]
    {
      var id := ids[i];
      assert unique[vertices[i]] == id && unique[vertices[j]] == id;
    }
  }

  /**
   * The first loop of `set_trimesh_body_shape`: the first occurrence of a
   * vertex opens a new node, each vertex is appended to its node's list and
   * gets the node's id.
   */
  method MergeVertices(vertices: seq<Vector3>) returns (ids: seq<nat>, table: seq<seq<nat>>)
    ensures IdsOf(vertices, table, ids)
  {
    var unique: map<Vector3, nat> := map[];
    table := [];
    ids := [];
    var index := 0;
    var i := 0;
    while i < |vertices|
      invariant MergedSoFar(vertices, i, unique, table, ids) && index == |table|
    {
      var id: nat;
      if vertices[i] in unique {
        id := unique[vertices[i]];
        MergeStepKnown(vertices, i, unique, table, ids);
        table := table[id := table[id] + [i]];
      } else {
        MergeStepNew(vertices, i, unique, table, ids);
        id := index;
        unique := unique[vertices[i] := id];
        index := index + 1;
        // An empty list pushed and then given `i` is the list `[i]`.
        table := table + [[i]];
      }
      ids := ids + [id];
      i := i + 1;
    }
    MergeDone(vertices, unique, table, ids);
  }

  /** The second loop: each node sits at its first vertex; the nodes are the distinct vertices. */
  method NodePositions(vertices: seq<Vector3>, table: seq<seq<nat>>) returns (nodes: seq<Vector3>)
    requires exists ids :: IdsOf(vertices, table, ids)
    ensures Merged(vertices, table, nodes)
  {
    ghost var ids :| IdsOf(vertices, table, ids);
    nodes := [];
    var i := 0;
    while i < |table|
      invariant 0 <= i <= |table| && |nodes| == i
      invariant forall id :: 0 <= id < i ==> table[id][0] < |vertices| && nodes[id] == vertices[table[id][0]]
    {
      assert ids[table[i][0]] == i;
      nodes := nodes + [vertices[table[i][0]]];
      i := i + 1;
    }
    NodesDistinct(vertices, table, ids, nodes);
  }

  lemma NodesDistinct(vertices: seq<Vector3>, table: seq<seq<nat>>, ids: seq<nat>, nodes: seq<Vector3>)
    requires IdsOf(vertices, table, ids)
    requires |nodes| == |table|
    requires forall id :: 0 <= id < |table| ==> table[id][0] < |vertices| && nodes[id] == vertices[table[id][0]]
    ensures Merged(vertices, table, nodes)
  {
    forall a, b | 0 <= a < b < |nodes|
      ensures nodes[a] != nodes[b]
    {
      assert ids[table[a][0]] == a && ids[table[b][0]] == b;
    }
    forall i | 0 <= i < |vertices|
      ensures vertices[i] in nodes
    {
      var id := ids[i];
      assert i in table[id];
      var k :| 0 <= k < |table[id]| && table[id][k] == i;
      assert ids[table[id][0]] == id;
      assert nodes[id] == vertices[i];
    }
  }

  // ---- Rewinding the triangles ----

  /** Where corner `j` of the output reads its index: the same triangle, corners in reverse order. */
  function Corner(j: nat): (k: nat)
    ensures k / 3 == j / 3 && k % 3 == 2 - j % 3
  {
    3 * (j / 3) + 2 - j % 3
  }

  /** Each output corner is the node of the input corner it mirrors. */
  ghost predicate CornersAgree(indices: seq<int>, ids: seq<nat>, triangles: seq<nat>)
  {
    forall j :: 0 <= j < |triangles| ==>
      Corner(j) < |indices| && 0 <= indices[Corner(j)] < |ids| && triangles[j] == ids[indices[Corner(j)]]
  }

  /** One triangle out per whole input triangle, each rewound onto the nodes; a trailing partial triangle is dropped. */
  ghost predicate Rewound(indices: seq<int>, ids: seq<nat>, triangles: seq<nat>)
  {
    |triangles| == |indices| / 3 * 3 && CornersAgree(indices, ids, triangles)
  }

  /** The triangle loop: corner c of triangle t is the node of index 3t + 2 - c. */
  method RewindTriangles(indices: seq<int>, ids: seq<nat>) returns (triangles: seq<nat>)
    requires forall k :: 0 <= k < |indices| / 3 * 3 ==> 0 <= indices[k] < |ids|
    ensures Rewound(indices, ids, triangles)
  {
    var count := |indices| / 3;
    triangles := [];
    var t := 0;
    while t < count
      invariant 0 <= t <= count && |triangles| == 3 * t
      invariant CornersAgree(indices, ids, triangles)
    {
      var next := triangles + [ids[indices[3 * t + 2]], ids[indices[3 * t + 1]], ids[indices[3 * t]]];
      RewoundStep(indices, ids, t, triangles, next);
      triangles := next;
      t := t + 1;
    }
  }

  lemma RewoundStep(indices: seq<int>, ids: seq<nat>, t: nat, triangles: seq<nat>, next: seq<nat>)
    requires 3 * t + 3 <= |indices|
    requires 0 <= indices[3 * t] < |ids| && 0 <= indices[3 * t + 1] < |ids| && 0 <= indices[3 * t + 2] < |ids|
    requires |triangles| == 3 * t && CornersAgree(indices, ids, triangles)
    requires next == triangles + [ids[indices[3 * t + 2]], ids[indices[3 * t + 1]], ids[indices[3 * t]]]
    ensures CornersAgree(indices, ids, next)
  {
    forall j | 3 * t <= j < |next|
      ensures Corner(j) < |indices| && 0 <= indices[Corner(j)] < |ids| && next[j] == ids[indices[Corner(j)]]
    {
      assert j / 3 == t;
      assert Corner(j) == 3 * t + 2 - (j - 3 * t);
    }
  }
}
