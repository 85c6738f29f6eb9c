/** The counters new ids come from, src/core/id_generator.rs. */
module IdGenerator {
  import opened Core

  /** `n + 1` in a release build; a debug build stops at the greatest number instead. */
  function After(n: U64): U64 {
    if n == MAX_U64 then 0 else n + 1
  }

  class IdGenerator {
    var nextNode: U64
    var nextEdge: U64

    constructor ()
      ensures nextNode == 0 && nextEdge == 0
    {
      nextNode, nextEdge := 0, 0;
    }

    /** `clone` */
    constructor Snapshot(g: IdGenerator)
      ensures nextNode == g.nextNode && nextEdge == g.nextEdge
    {
      nextNode, nextEdge := g.nextNode, g.nextEdge;
    }

    method NextNodeId() returns (id: NodeId)
      modifies this
      ensures id == old(nextNode) && nextNode == After(id) && nextEdge == old(nextEdge)
    {
      id := nextNode;
      nextNode := After(nextNode);
    }

    method NextEdgeId() returns (id: EdgeId)
      modifies this
      ensures id == old(nextEdge) && nextEdge == After(id) && nextNode == old(nextNode)
    {
      id := nextEdge;
      nextEdge := After(nextEdge);
    }

    /** Afterwards the counter is past the id, and it never moves back, but for the greatest id,
        which takes it to 0. */
    method SeedFromNode(seen: NodeId)
      modifies this
      ensures nextNode > seen && nextNode >= old(nextNode) <==> seen < MAX_U64
      ensures nextNode == (if seen < old(nextNode) then old(nextNode) else After(seen)) && nextEdge == old(nextEdge)
    {
      if seen >= nextNode {
        nextNode := After(seen);
      }
    }

    method SeedFromEdge(seen: EdgeId)
      modifies this
      ensures nextEdge > seen && nextEdge >= old(nextEdge) <==> seen < MAX_U64
      ensures nextEdge == (if seen < old(nextEdge) then old(nextEdge) else After(seen)) && nextNode == old(nextNode)
    {
      if seen >= nextEdge {
        nextEdge := After(seen);
      }
    }
  }
}
