/** `useNodes`: the ordered store of placed shapes and the pending shape type. */
module NodeStore {
  import opened Types

  const BaseNodeWidth: real := 50.0
  const BaseNodeHeight: real := 50.0

  datatype Store = Store(nodes: seq<NodeData>, nodeTypeToAdd: Option<NodeType>)

  function Init(): (s: Store)
    ensures |s.nodes| == 0 && s.nodeTypeToAdd.None?
  {
    Store([], None)
  }

  /** The id `addNode` gives a new shape: its type name, a dash, and the clock
      reading `now` (the text of `Date.now()`, supplied by the caller). */
  function NodeId(t: NodeType, now: string): (id: string)
    ensures |id| > |NodeTypeName(t)|
    ensures id[..|NodeTypeName(t)|] == NodeTypeName(t)
    ensures id[|NodeTypeName(t)|] == '-'
  {
    NodeTypeName(t) + "-" + now
  }

  /** `addNode`: append a fresh 50 x 50 shape at `position`; the new store and
      the node are both returned. */
  function AddNode(nodes: seq<NodeData>, position: Point, t: NodeType, now: string)
    : (r: (seq<NodeData>, NodeData))
    ensures |r.0| == |nodes| + 1 && r.0[..|nodes|] == nodes
    ensures r.0[|nodes|] == r.1
    ensures r.1.nodeType == Some(t) && r.1.position == position
    ensures r.1.width == 50.0 && r.1.height == 50.0 && r.1.scale == 1.0
    ensures r.1.id == NodeId(t, now)
  {
    var node := NodeData(NodeId(t, now), Some(t), position, 1.0, BaseNodeWidth, BaseNodeHeight);
    (nodes + [node], node)
  }

  /** `updateNode`: every node carrying `id` moves to `p`; nothing else changes. */
  function UpdateNode(nodes: seq<NodeData>, id: string, p: Point): (r: seq<NodeData>)
    ensures |r| == |nodes|
    ensures forall i :: 0 <= i < |r| ==> r[i].(position := nodes[i].position) == nodes[i]
    ensures forall i :: 0 <= i < |r| && nodes[i].id == id ==> r[i].position == p
    ensures forall i :: 0 <= i < |r| && nodes[i].id != id ==> r[i] == nodes[i]
  {
    seq(|nodes|, i requires 0 <= i < |nodes| =>
      if nodes[i].id == id then nodes[i].(position := p) else nodes[i])
  }

  /** Some node of the store carries `id`. */
  predicate HasId(nodes: seq<NodeData>, id: string) {
    exists i :: 0 <= i < |nodes| && nodes[i].id == id
  }

  /** `deleteNode`: keep, in order, exactly the nodes whose id is not `id`. */
  function DeleteNode(nodes: seq<NodeData>, id: string): (r: seq<NodeData>)
    ensures |r| <= |nodes|
    ensures forall n {:trigger n in r} :: n in r <==> n in nodes && n.id != id
    ensures !HasId(r, id)
    decreases |nodes|
  {
    if |nodes| == 0 then []
    else if nodes[0].id == id then DeleteNode(nodes[1..], id)
    else [nodes[0]] + DeleteNode(nodes[1..], id)
  }

  /** Position of the first node carrying `id` (`Array.prototype.findIndex`). */
  function FindIndexById(nodes: seq<NodeData>, id: string): (r: Option<nat>)
    ensures r.Some? ==> r.value < |nodes| && nodes[r.value].id == id
    ensures r.Some? ==> forall j :: 0 <= j < r.value ==> nodes[j].id != id
    ensures r.None? <==> !HasId(nodes, id)
    decreases |nodes|
  {
    if |nodes| == 0 then None
    else if nodes[0].id == id then Some(0)
    else match FindIndexById(nodes[1..], id)
      case None => None
      case Some(k) => Some(k + 1)
  }

  /** `n` is the first node of `nodes` that carries `id`. */
  predicate FirstWithId(nodes: seq<NodeData>, id: string, n: NodeData) {
    exists i :: 0 <= i < |nodes| && nodes[i] == n && n.id == id
                && forall j :: 0 <= j < i ==> nodes[j].id != id
  }

  /** `nodes.find(n => n.id === id)`: the first node carrying `id`. */
  function FindById(nodes: seq<NodeData>, id: string): (r: Option<NodeData>)
    ensures r.Some? ==> r.value in nodes && r.value.id == id
    ensures r.Some? ==> FirstWithId(nodes, id, r.value)
    ensures r.None? <==> !HasId(nodes, id)
  {
    match FindIndexById(nodes, id)
    case None => None
    case Some(i) => Some(nodes[i])
  }

  /** Updating an id nobody carries leaves the store as it was. */
  lemma UpdateUnknownIsIdentity(nodes: seq<NodeData>, id: string, p: Point)
    requires !HasId(nodes, id)
    ensures UpdateNode(nodes, id, p) == nodes
  {
  }

  /** Deleting an id nobody carries leaves the store as it was. */
  lemma {:induction false} DeleteUnknownIsIdentity(nodes: seq<NodeData>, id: string)
    requires !HasId(nodes, id)
    ensures DeleteNode(nodes, id) == nodes
    decreases |nodes|
  {
    if |nodes| > 0 {
      assert !HasId(nodes[1..], id) by {
        forall j | 0 <= j < |nodes[1..]| ensures nodes[1..][j].id != id {
          assert nodes[1..][j] == nodes[j + 1];
        }
      }
      DeleteUnknownIsIdentity(nodes[1..], id);
    }
  }

  /** Deleting twice is deleting once. */
  lemma DeleteIdempotent(nodes: seq<NodeData>, id: string)
    ensures DeleteNode(DeleteNode(nodes, id), id) == DeleteNode(nodes, id)
  {
    DeleteUnknownIsIdentity(DeleteNode(nodes, id), id);
  }

  /** Deletion works piecewise, so the survivors keep their relative order. */
  lemma {:induction false} DeleteDistributes(xs: seq<NodeData>, ys: seq<NodeData>, id: string)
    ensures DeleteNode(xs + ys, id) == DeleteNode(xs, id) + DeleteNode(ys, id)
    decreases |xs|
  {
    if |xs| == 0 {
      assert xs + ys == ys;
    } else {
      assert (xs + ys)[1..] == xs[1..] + ys;
      DeleteDistributes(xs[1..], ys, id);
    }
  }

  /** A node appended under a fresh id is exactly what deleting that id removes. */
  lemma DeleteAfterAppend(nodes: seq<NodeData>, n: NodeData)
    requires !HasId(nodes, n.id)
    ensures DeleteNode(nodes + [n], n.id) == nodes
  {
    DeleteDistributes(nodes, [n], n.id);
    DeleteUnknownIsIdentity(nodes, n.id);
  }

  /** No two nodes share an id (what `Date.now()`-based ids aim for). */
  predicate UniqueIds(nodes: seq<NodeData>) {
    forall i, j :: 0 <= i < j < |nodes| ==> nodes[i].id != nodes[j].id
  }

  /** In a store with unique ids, deleting a present id removes exactly one
      node. */
  lemma {:induction false} DeleteUniqueRemovesOne(nodes: seq<NodeData>, id: string)
    requires UniqueIds(nodes) && HasId(nodes, id)
    ensures |DeleteNode(nodes, id)| == |nodes| - 1
    decreases |nodes|
  {
    var rest := nodes[1..];
    if nodes[0].id == id {
      assert !HasId(rest, id) by {
        forall j | 0 <= j < |rest| ensures rest[j].id != id {
          assert rest[j] == nodes[j + 1];
        }
      }
      DeleteUnknownIsIdentity(rest, id);
    } else {
      assert HasId(rest, id) by {
        var k :| 0 <= k < |nodes| && nodes[k].id == id;
        assert rest[k - 1] == nodes[k];
      }
      assert UniqueIds(rest) by {
        forall i, j | 0 <= i < j < |rest| ensures rest[i].id != rest[j].id {
          assert rest[i] == nodes[i + 1] && rest[j] == nodes[j + 1];
        }
      }
      DeleteUniqueRemovesOne(rest, id);
    }
  }
}
