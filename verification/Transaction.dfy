/** The client-side write buffer, src/transaction/mod.rs. */
module Transaction {
  import opened Core
  import IdGenerator

  datatype StagedOp =
    | InsertNode(node: Node)
    | InsertEdge(edge: Edge)
    | DeleteNode(nodeId: NodeId)
    | DeleteEdge(edgeId: EdgeId)

  /** The ids a transaction inserts are distinct and lie in the given ranges. */
  ghost predicate StagedWithin(ops: seq<StagedOp>, n0: nat, n1: nat, e0: nat, e1: nat) {
    && (forall i :: 0 <= i < |ops| && ops[i].InsertNode? ==> n0 <= ops[i].node.id < n1)
    && (forall i :: 0 <= i < |ops| && ops[i].InsertEdge? ==> e0 <= ops[i].edge.id < e1)
    && InsertsDistinct(ops)
  }

  ghost predicate InsertsDistinct(ops: seq<StagedOp>) {
    && (forall i, j :: 0 <= i < j < |ops| && ops[i].InsertNode? && ops[j].InsertNode? ==>
          ops[i].node.id != ops[j].node.id)
    && (forall i, j :: 0 <= i < j < |ops| && ops[i].InsertEdge? && ops[j].InsertEdge? ==>
          ops[i].edge.id != ops[j].edge.id)
  }

  class Transaction {
    const txnId: U64
    var operations: seq<StagedOp>
    const idGen: IdGenerator.IdGenerator

    /** The counters of the database when the transaction began. */
    ghost const baseNode: U64
    ghost const baseEdge: U64

    ghost predicate Valid()
      reads this, idGen
    {
      && baseNode <= idGen.nextNode && baseEdge <= idGen.nextEdge
      && StagedWithin(operations, baseNode, idGen.nextNode, baseEdge, idGen.nextEdge)
    }

    constructor (txnId: U64, generator: IdGenerator.IdGenerator)
      ensures Valid() && fresh(idGen) && operations == [] && this.txnId == txnId
      ensures baseNode == idGen.nextNode == generator.nextNode && baseEdge == idGen.nextEdge == generator.nextEdge
    {
      this.txnId := txnId;
      operations := [];
      idGen := new IdGenerator.IdGenerator.Snapshot(generator);
      baseNode, baseEdge := generator.nextNode, generator.nextEdge;
    }

    method StageInsertNode(lbl: string, props: Properties) returns (id: NodeId)
      requires Valid() && idGen.nextNode < MAX_U64
      modifies this, idGen
      ensures Valid() && operations == old(operations) + [InsertNode(Node(id, lbl, props))]
      ensures id == old(idGen.nextNode) && idGen.nextNode == id + 1 && idGen.nextEdge == old(idGen.nextEdge)
    {
      id := idGen.NextNodeId();
      operations := operations + [InsertNode(Node(id, lbl, props))];
    }

    method StageInsertEdge(source: NodeId, target: NodeId, lbl: string, weight: F64, props: Properties)
      returns (id: EdgeId)
      requires Valid() && idGen.nextEdge < MAX_U64
      modifies this, idGen
      ensures Valid() && operations == old(operations) + [InsertEdge(Edge(id, source, target, lbl, weight, props))]
      ensures id == old(idGen.nextEdge) && idGen.nextEdge == id + 1 && idGen.nextNode == old(idGen.nextNode)
    {
      id := idGen.NextEdgeId();
      operations := operations + [InsertEdge(Edge(id, source, target, lbl, weight, props))];
    }

    method StageDelete(op: StagedOp)
      requires Valid() && (op.DeleteNode? || op.DeleteEdge?)
      modifies this
      ensures Valid() && operations == old(operations) + [op]
    {
      operations := operations + [op];
    }

    /** Moves the target past every id staged here and never back. */
    method SeedGeneratorInto(target: IdGenerator.IdGenerator)
      requires Valid() && target != idGen
      modifies target
      ensures target.nextNode >= old(target.nextNode) && target.nextEdge >= old(target.nextEdge)
      ensures forall i :: 0 <= i < |operations| && operations[i].InsertNode? ==> operations[i].node.id < target.nextNode
      ensures forall i :: 0 <= i < |operations| && operations[i].InsertEdge? ==> operations[i].edge.id < target.nextEdge
      ensures target.nextNode == old(target.nextNode) || target.nextNode <= idGen.nextNode
      ensures target.nextEdge == old(target.nextEdge) || target.nextEdge <= idGen.nextEdge
    {
      for i := 0 to |operations|
        invariant Valid()
        invariant target.nextNode >= old(target.nextNode) && target.nextEdge >= old(target.nextEdge)
        invariant forall j :: 0 <= j < i && operations[j].InsertNode? ==> operations[j].node.id < target.nextNode
        invariant forall j :: 0 <= j < i && operations[j].InsertEdge? ==> operations[j].edge.id < target.nextEdge
        invariant target.nextNode == old(target.nextNode) || target.nextNode <= idGen.nextNode
        invariant target.nextEdge == old(target.nextEdge) || target.nextEdge <= idGen.nextEdge
      {
        match operations[i] {
          case InsertNode(n) => target.SeedFromNode(n.id);
          case InsertEdge(e) => target.SeedFromEdge(e.id);
          case _ =>
        }
      }
    }
  }
}
