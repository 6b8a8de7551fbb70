/**
 * The edge index of NetAgent: two maps from node id to a set of node ids,
 * outEdges (who a node sends to) and inEdges (who sends to a node). The
 * source keeps them in step by hand; here inEdges is required to be the
 * transpose of outEdges, and each update is proved to keep it so.
 */
module Edges {
  type Adjacency = map<string, set<string>>

  /** The adjacency set of `id`; a missing entry reads as empty, like a nil Go map. */
  function Neighbours(edges: Adjacency, id: string): set<string> {
    if id in edges then edges[id] else {}
  }

  /** For every id in `keys`, the ids whose out-set names it. */
  function Transpose(keys: set<string>, outEdges: Adjacency): (r: Adjacency)
    ensures r.Keys == keys
  {
    map b | b in keys :: set a | a in outEdges && b in outEdges[a]
  }

  /** No out-set names an id outside `keys`. */
  ghost predicate Closed(outEdges: Adjacency, keys: set<string>) {
    forall a :: a in outEdges ==> outEdges[a] <= keys
  }

  /** The index over the node ids `keys`: both views keyed by exactly those ids, and inEdges the transpose of outEdges. */
  ghost predicate Indexed(keys: set<string>, inEdges: Adjacency, outEdges: Adjacency) {
    outEdges.Keys == keys && Closed(outEdges, keys) && inEdges == Transpose(keys, outEdges)
  }

  /** In an index, an in-edge is exactly a mirrored out-edge. */
  lemma Mirror(keys: set<string>, inEdges: Adjacency, outEdges: Adjacency, from: string, to: string)
    requires Indexed(keys, inEdges, outEdges)
    ensures to in Neighbours(outEdges, from) <==> from in Neighbours(inEdges, to)
  {
    if to in Neighbours(outEdges, from) {
      assert to in keys;
    }
  }

  /** Every node's entry with `id` removed, as a key and from every set. */
  function RemoveId(edges: Adjacency, id: string): (r: Adjacency)
    ensures r.Keys == edges.Keys - {id}
    ensures forall k :: k in r ==> id !in r[k]
  {
    map k | k in edges && k != id :: edges[k] - {id}
  }

  /** A new node starts with no edges either way. */
  lemma IndexAddNode(keys: set<string>, inEdges: Adjacency, outEdges: Adjacency, id: string)
    requires Indexed(keys, inEdges, outEdges) && id !in keys
    ensures Indexed(keys + {id}, inEdges[id := {}], outEdges[id := {}])
  {
    var outs := outEdges[id := {}];
    forall b | b in keys + {id}
      ensures inEdges[id := {}][b] == Transpose(keys + {id}, outs)[b]
    {
      if b == id {
        forall a | a in outs ensures id !in outs[a] {
          if a != id {
            assert outs[a] <= keys;
          }
        }
      } else {
        assert (set a | a in outs && b in outs[a]) == (set a | a in outEdges && b in outEdges[a]);
      }
    }
  }

  lemma IndexAddEdge(keys: set<string>, inEdges: Adjacency, outEdges: Adjacency, from: string, to: string)
    requires Indexed(keys, inEdges, outEdges) && from in keys && to in keys
    ensures Indexed(keys, inEdges[to := inEdges[to] + {from}], outEdges[from := outEdges[from] + {to}])
  {
    var outs := outEdges[from := outEdges[from] + {to}];
    forall b | b in keys
      ensures inEdges[to := inEdges[to] + {from}][b] == Transpose(keys, outs)[b]
    {
      if b == to {
        assert (set a | a in outs && b in outs[a]) == (set a | a in outEdges && b in outEdges[a]) + {from};
      } else {
        assert (set a | a in outs && b in outs[a]) == (set a | a in outEdges && b in outEdges[a]);
      }
    }
  }

  /** Adding an edge that is already there leaves both views as they were. */
  lemma AddPresentEdge(keys: set<string>, inEdges: Adjacency, outEdges: Adjacency, from: string, to: string)
    requires Indexed(keys, inEdges, outEdges) && from in keys && to in keys
    requires to in outEdges[from]
    ensures inEdges[to := inEdges[to] + {from}] == inEdges
    ensures outEdges[from := outEdges[from] + {to}] == outEdges
  {
    assert from in inEdges[to];
    assert outEdges[from] + {to} == outEdges[from];
    assert inEdges[to] + {from} == inEdges[to];
  }

  /** The maps DeleteEdge leaves: each endpoint's entry loses the other, where the entry exists. */
  function DropEdge(edges: Adjacency, key: string, other: string): Adjacency {
    if key in edges then edges[key := edges[key] - {other}] else edges
  }

  lemma IndexDeleteEdge(keys: set<string>, inEdges: Adjacency, outEdges: Adjacency, from: string, to: string)
    requires Indexed(keys, inEdges, outEdges)
    ensures Indexed(keys, DropEdge(inEdges, to, from), DropEdge(outEdges, from, to))
  {
    var outs := DropEdge(outEdges, from, to);
    forall b | b in keys
      ensures DropEdge(inEdges, to, from)[b] == Transpose(keys, outs)[b]
    {
      if b == to {
        assert (set a | a in outs && b in outs[a]) == (set a | a in outEdges && b in outEdges[a]) - {from};
      } else {
        assert (set a | a in outs && b in outs[a]) == (set a | a in outEdges && b in outEdges[a]);
      }
    }
  }

  /** Deleting an edge that is not there leaves both views as they were. */
  lemma DeleteAbsentEdge(keys: set<string>, inEdges: Adjacency, outEdges: Adjacency, from: string, to: string)
    requires Indexed(keys, inEdges, outEdges)
    requires to !in Neighbours(outEdges, from)
    ensures DropEdge(inEdges, to, from) == inEdges
    ensures DropEdge(outEdges, from, to) == outEdges
  {
    if from in outEdges {
      assert outEdges[from] - {to} == outEdges[from];
    }
    if to in inEdges {
      assert from !in inEdges[to];
      assert inEdges[to] - {from} == inEdges[to];
    }
  }

  /** With `id` not indexed, removing it changes nothing. */
  lemma RemoveAbsentId(keys: set<string>, inEdges: Adjacency, outEdges: Adjacency, id: string)
    requires Indexed(keys, inEdges, outEdges) && id !in keys
    ensures RemoveId(inEdges, id) == inEdges && RemoveId(outEdges, id) == outEdges
  {
    forall k | k in outEdges ensures outEdges[k] - {id} == outEdges[k] {
      assert outEdges[k] <= keys;
    }
    forall k | k in inEdges ensures inEdges[k] - {id} == inEdges[k] {
      forall a | a in inEdges[k] ensures a != id {
        assert a in outEdges;
      }
    }
  }

  /** Removing a node and every edge that names it keeps the index. */
  lemma IndexDeleteNode(keys: set<string>, inEdges: Adjacency, outEdges: Adjacency, id: string)
    requires Indexed(keys, inEdges, outEdges)
    ensures Indexed(keys - {id}, RemoveId(inEdges, id), RemoveId(outEdges, id))
  {
    var outs := RemoveId(outEdges, id);
    forall b | b in keys - {id}
      ensures RemoveId(inEdges, id)[b] == Transpose(keys - {id}, outs)[b]
    {
      assert (set a | a in outs && b in outs[a]) == (set a | a in outEdges && b in outEdges[a]) - {id};
    }
  }

  /** One pass of DeleteNode: `id` is removed from the entry of each key in `keys`. */
  method RemoveFromEach(edges: Adjacency, keys: set<string>, id: string) returns (r: Adjacency)
    ensures r.Keys == edges.Keys
    ensures forall k :: k in edges ==> r[k] == if k in keys then edges[k] - {id} else edges[k]
  {
    r := edges;
    var rest := keys;
    while rest != {}
      invariant rest <= keys
      invariant r.Keys == edges.Keys
      invariant forall k :: k in edges ==> r[k] == if k in keys && k !in rest then edges[k] - {id} else edges[k]
      decreases rest
    {
      var k :| k in rest;
      if k in r {
        r := r[k := r[k] - {id}];
      }
      rest := rest - {k};
    }
  }

  /**
   * The two passes of DeleteNode, over the in-neighbours and then the
   * out-neighbours of `id`, leave no entry but its own that names it;
   * dropping that entry too gives RemoveId.
   */
  lemma DeletePasses(keys: set<string>, inEdges: Adjacency, outEdges: Adjacency, ins: Adjacency, outs: Adjacency, id: string)
    requires Indexed(keys, inEdges, outEdges) && id in keys
    requires outs.Keys == outEdges.Keys
    requires forall k :: k in outEdges ==> outs[k] == if k in inEdges[id] then outEdges[k] - {id} else outEdges[k]
    requires ins.Keys == inEdges.Keys
    requires forall k :: k in inEdges ==> ins[k] == if k in outs[id] then inEdges[k] - {id} else inEdges[k]
    ensures ins - {id} == RemoveId(inEdges, id)
    ensures outs - {id} == RemoveId(outEdges, id)
  {
    forall k | k in outEdges && k !in inEdges[id]
      ensures outEdges[k] - {id} == outEdges[k]
    {
      assert id !in outEdges[k];
    }
    assert outs[id] == outEdges[id] - {id};
    forall k | k in inEdges && k != id && k !in outEdges[id]
      ensures inEdges[k] - {id} == inEdges[k]
    {
      assert id !in inEdges[k];
    }
  }

  /**
   * The edge half of DeleteNode: drop `id` from the out-set of every node
   * with an edge into it, then from the in-set of every node it has an
   * edge to, then drop its own entries.
   */
  method RemoveNodeEdges(keys: set<string>, inEdges: Adjacency, outEdges: Adjacency, id: string) returns (ins: Adjacency, outs: Adjacency)
    requires Indexed(keys, inEdges, outEdges) && id in keys
    ensures ins == RemoveId(inEdges, id) && outs == RemoveId(outEdges, id)
  {
    outs := RemoveFromEach(outEdges, inEdges[id], id);
    ins := RemoveFromEach(inEdges, outs[id], id);
    DeletePasses(keys, inEdges, outEdges, ins, outs, id);
    ins, outs := ins - {id}, outs - {id};
  }
}
