/** The cost-based choice of a plan, src/query/planner.rs. */
module Planner {
  import opened Core
  import opened QueryAst
  import LabelIndex
  import PropertyIndex

  /** What the database reports about itself. The estimate for a property index scan, a rounded
      logarithm plus a tenth of the node count, is a number like the others. */
  datatype Stats = Stats(
    nodeCount: nat, edgeCount: nat, labelCounts: map<string, nat>, indexedNodeFields: set<string>,
    propertyIndexCost: nat)
  {
    function LabelCount(label': string): nat {
      if label' in labelCounts then labelCounts[label'] else 0
    }
  }

  datatype Plan =
    | PropertyIndexScan(field: string, op: Op, value: Value, remaining: NodeFilter)
    | LabelIndexScan(lbl: string, remaining: NodeFilter)
    | FullNodeScan(nodeFilter: NodeFilter)
    | FullEdgeScan(edgeFilter: EdgeFilter)
    | NodeLookup(nodeId: NodeId)
    | EdgeLookup(edgeId: EdgeId)
    | Traverse(kind: TraversalKind, start: NodeId)
    | ShortestPath(from: NodeId, goal: NodeId)
    | CountNodes
    | CountEdges

  /** Lower is more selective. */
  function Rank(op: Op): nat {
    match op
    case Eq => 0
    case NotEq => 4
    case _ => 2
  }

  /** The first condition of least rank among those whose field is indexed. */
  function BestIndexed(conds: seq<Condition>, stats: Stats): Option<Condition> {
    if conds == [] then None
    else
      var best, last := BestIndexed(conds[..|conds| - 1], stats), conds[|conds| - 1];
      if last.key in stats.indexedNodeFields && (best.None? || Rank(last.op) < Rank(best.value.op)) then Some(last)
      else best
  }

  ghost predicate IsBest(conds: seq<Condition>, stats: Stats, i: int) {
    && 0 <= i < |conds| && conds[i].key in stats.indexedNodeFields
    && (forall j :: 0 <= j < |conds| && conds[j].key in stats.indexedNodeFields ==>
          Rank(conds[i].op) <= Rank(conds[j].op))
    && (forall j :: 0 <= j < i && conds[j].key in stats.indexedNodeFields ==> Rank(conds[i].op) < Rank(conds[j].op))
  }

  lemma {:induction false} BestIsBest(conds: seq<Condition>, stats: Stats) returns (i: int)
    ensures BestIndexed(conds, stats).None? <==>
            forall j :: 0 <= j < |conds| ==> conds[j].key !in stats.indexedNodeFields
    ensures BestIndexed(conds, stats).Some? ==> IsBest(conds, stats, i) && conds[i] == BestIndexed(conds, stats).value
    decreases |conds|
  {
    if conds == [] {
      i := 0;
    } else {
      hide Rank, IsBest;
      var n := |conds| - 1;
      i := BestIsBest(conds[..n], stats);
      BestNext(conds[..n], conds[n], stats, i);
      assert conds == conds[..n] + [conds[n]];
      if BestIndexed(conds, stats) != BestIndexed(conds[..n], stats) {
        i := n;
      }
    }
  }

  lemma BestNext(init: seq<Condition>, last: Condition, stats: Stats, i: int)
    requires BestIndexed(init, stats).None? <==>
             forall j :: 0 <= j < |init| ==> init[j].key !in stats.indexedNodeFields
    requires BestIndexed(init, stats).Some? ==> IsBest(init, stats, i) && init[i] == BestIndexed(init, stats).value
    ensures var best := BestIndexed(init, stats);
            if last.key in stats.indexedNodeFields && (best.None? || Rank(last.op) < Rank(best.value.op))
            then IsBest(init + [last], stats, |init|) && best != Some(last)
            else best.Some? ==> IsBest(init + [last], stats, i)
  {
    hide BestIndexed, Rank;
  }

  /** `==` on values; floats compare as numbers. */
  predicate SameValue(fm: FloatModel, a: Value, b: Value) {
    if a.Float? && b.Float? then fm.equal(a.f, b.f) else a == b
  }

  predicate SameCondition(fm: FloatModel, a: Condition, b: Condition) {
    a.key == b.key && a.op == b.op && SameValue(fm, a.value, b.value)
  }

  /** The filter without the condition the index takes care of. */
  function WithoutCondition(fm: FloatModel, filter: NodeFilter, best: Condition): NodeFilter {
    filter.(conditions := Filter((c: Condition) => !SameCondition(fm, c, best), filter.conditions))
  }

  function PlanMatchNodes(fm: FloatModel, filter: NodeFilter, stats: Stats): (plan: Plan)
    ensures plan.PropertyIndexScan? || plan.LabelIndexScan? || plan.FullNodeScan?
  {
    var fullScanCost := stats.nodeCount;
    var best := BestIndexed(filter.conditions, stats);
    var labelCost := if filter.lbl.Some? then stats.LabelCount(filter.lbl.value) else fullScanCost;
    if best.Some? && stats.propertyIndexCost <= labelCost && stats.propertyIndexCost < fullScanCost then
      PropertyIndexScan(best.value.key, best.value.op, best.value.value, WithoutCondition(fm, filter, best.value))
    else if filter.lbl.Some? && labelCost < fullScanCost then
      LabelIndexScan(filter.lbl.value, filter)
    else
      FullNodeScan(filter)
  }

  function MakePlan(fm: FloatModel, command: QueryCommand, stats: Stats): Plan {
    match command
    case MatchNodes(filter) => PlanMatchNodes(fm, filter, stats)
    case MatchEdges(filter) => FullEdgeScan(filter)
    case GetNode(id) => NodeLookup(id)
    case GetEdge(id) => EdgeLookup(id)
    case Traverse(kind, start) => Plan.Traverse(kind, start)
    case ShortestPath(from, goal) => Plan.ShortestPath(from, goal)
    case CountNodes => Plan.CountNodes
    case CountEdges => Plan.CountEdges
  }

  // ---- Which plan is chosen ----

  ghost predicate Indexed(filter: NodeFilter, stats: Stats, i: nat) {
    i < |filter.conditions| && filter.conditions[i].key in stats.indexedNodeFields
  }

  ghost predicate HasLabelEstimate(stats: Stats, lbl: string, n: nat) {
    if lbl in stats.labelCounts then n == stats.labelCounts[lbl] else n == 0
  }

  /** An estimate below that of the full scan is taken, the least one there is, of the same ones that of
      the property index. Of a label the estimate is its count, or zero. */
  lemma CheapestPlan(fm: FloatModel, filter: NodeFilter, stats: Stats, labelled: nat)
    requires filter.lbl.Some? ==> HasLabelEstimate(stats, filter.lbl.value, labelled)
    ensures var plan, seek, all := PlanMatchNodes(fm, filter, stats), stats.propertyIndexCost, stats.nodeCount;
            var indexed := exists i: nat :: Indexed(filter, stats, i);
            && (plan.PropertyIndexScan? <==> indexed && seek < all && (filter.lbl.Some? ==> seek <= labelled))
            && (plan.LabelIndexScan? <==> filter.lbl.Some? && labelled < all && (indexed ==> labelled < seek))
            && (plan.FullNodeScan? <==> (indexed ==> all <= seek) && (filter.lbl.Some? ==> all <= labelled))
            && (plan.LabelIndexScan? ==> Some(plan.lbl) == filter.lbl)
  {
    var i := BestIsBest(filter.conditions, stats);
    hide BestIndexed;
    if BestIndexed(filter.conditions, stats).Some? {
      assert Indexed(filter, stats, i);
    }
  }

  /** The index gets the first condition with `=`, failing that the first with an order operator, and
      `!=` last of all. */
  lemma ChosenCondition(fm: FloatModel, filter: NodeFilter, stats: Stats) returns (i: nat)
    ensures var plan := PlanMatchNodes(fm, filter, stats);
            plan.PropertyIndexScan? ==>
              && Indexed(filter, stats, i) && filter.conditions[i] == Condition(plan.field, plan.op, plan.value)
              && forall j: nat :: Indexed(filter, stats, j) ==>
                   && (filter.conditions[j].op == Eq ==> plan.op == Eq && i <= j)
                   && (IsOrder(filter.conditions[j].op) && IsOrder(plan.op) ==> i <= j)
                   && (plan.op == NotEq ==> filter.conditions[j].op == NotEq && i <= j)
  {
    var k := BestIsBest(filter.conditions, stats);
    hide BestIndexed;
    i := if k < 0 then 0 else k;
  }

  // ---- What a plan finds ----

  type Nodes = map<NodeId, Node>

  /** The nodes the filter asks for: a scan of all nodes. */
  function Matches(fm: FloatModel, nodes: Nodes, filter: NodeFilter): set<NodeId> {
    set id | id in nodes && filter.Matches(fm, nodes[id])
  }

  /** The label an index scan looks up. */
  function ScanLabel(filter: NodeFilter): string {
    if filter.lbl.Some? then filter.lbl.value else ""
  }

  /** The nodes a plan for a node match finds. */
  function Finds(fm: FloatModel, nodes: Nodes, plan: Plan): set<NodeId> {
    match plan
    case PropertyIndexScan(field, op, value, remaining) =>
      PropertyIndex.Matching(fm, nodes, field, op, value) * Matches(fm, nodes, remaining)
    case LabelIndexScan(_, remaining) =>
      LabelIndex.WithLabel(nodes, ScanLabel(remaining)) * Matches(fm, nodes, remaining)
    case FullNodeScan(filter) => Matches(fm, nodes, filter)
    case _ => {}
  }

  /** Index and scan agree on what every live node has under the key. */
  ghost predicate AgreesOn(fm: FloatModel, nodes: Nodes, c: Condition) {
    forall id :: id in nodes && c.key in nodes[id].properties ==>
      IndexAgrees(fm, c.op, nodes[id].properties[c.key], c.value)
  }

  lemma IndexFinds(fm: FloatModel, nodes: Nodes, c: Condition, id: NodeId)
    requires fm.Laws() && id in nodes
    ensures (id in PropertyIndex.Matching(fm, nodes, c.key, c.op, c.value) <==> c.Matches(fm, nodes[id].properties))
       <==> (c.key in nodes[id].properties ==> IndexAgrees(fm, c.op, nodes[id].properties[c.key], c.value))
  {
    hide FloatModel.Laws, IndexAgrees, CompareValues, CompareKeys;
    if c.key in nodes[id].properties {
      IndexAgreesWithScan(fm, c.op, nodes[id].properties[c.key], c.value);
    }
  }

  /** For one condition, the index finds what the scan finds exactly when they agree on every live
      node. */
  lemma IndexScanExact(fm: FloatModel, nodes: Nodes, c: Condition)
    requires fm.Laws()
    ensures PropertyIndex.Matching(fm, nodes, c.key, c.op, c.value) == Matches(fm, nodes, NodeFilter(None, [c]))
       <==> AgreesOn(fm, nodes, c)
  {
    hide FloatModel.Laws, IndexAgrees, Condition.Matches, PropertyIndex.Matching;
    var filter := NodeFilter(None, [c]);
    forall id | id in nodes
      ensures filter.Matches(fm, nodes[id]) <==> c.Matches(fm, nodes[id].properties)
      ensures (id in PropertyIndex.Matching(fm, nodes, c.key, c.op, c.value) <==> id in Matches(fm, nodes, filter))
         <==> (c.key in nodes[id].properties ==> IndexAgrees(fm, c.op, nodes[id].properties[c.key], c.value))
    {
      assert filter.conditions[0] == c;
      IndexFinds(fm, nodes, c, id);
    }
    FoundAreLive(fm, nodes, c);
  }

  lemma FoundAreLive(fm: FloatModel, nodes: Nodes, c: Condition)
    ensures PropertyIndex.Matching(fm, nodes, c.key, c.op, c.value) <= nodes.Keys
  {
  }

  /** Conditions the planner takes for equal hold of the same nodes. */
  lemma SameConditionAgrees(fm: FloatModel, c: Condition, best: Condition, props: Properties)
    requires fm.CompareLaws() && SameCondition(fm, c, best)
    ensures c.Matches(fm, props) == best.Matches(fm, props)
  {
  }

  /** Taking a condition out, with those equal to it, and checking it on its own keeps the filter. */
  lemma RemainingMatches(fm: FloatModel, filter: NodeFilter, best: Condition, n: Node)
    requires fm.CompareLaws() && best in filter.conditions
    ensures filter.Matches(fm, n)
       <==> best.Matches(fm, n.properties) && WithoutCondition(fm, filter, best).Matches(fm, n)
  {
    hide Condition.Matches, SameCondition, FloatModel.CompareLaws;
    var conds, props := filter.conditions, n.properties;
    var keep := (c: Condition) => !SameCondition(fm, c, best);
    var rest := Filter(keep, conds);
    FilterContent(keep, conds);
    assert forall i :: 0 <= i < |conds| ==> conds[i] in conds;
    assert forall i :: 0 <= i < |rest| ==> rest[i] in rest;
    if best.Matches(fm, props) && AllMatch(fm, rest, props) {
      forall i | 0 <= i < |conds| ensures conds[i].Matches(fm, props) {
        if keep(conds[i]) {
          assert conds[i] in rest;
        } else {
          SameConditionAgrees(fm, conds[i], best, props);
        }
      }
    }
  }

  /** Index and scan agree on the nodes a property scan has left to tell apart. */
  ghost predicate PlanAgrees(fm: FloatModel, nodes: Nodes, plan: Plan) {
    plan.PropertyIndexScan? ==>
      forall id :: id in Matches(fm, nodes, plan.remaining) && plan.field in nodes[id].properties ==>
        IndexAgrees(fm, plan.op, nodes[id].properties[plan.field], plan.value)
  }

  /** Whatever the statistics say, the chosen plan finds what a scan of all nodes with the original
      filter finds, exactly when index and scan agree on the nodes that meet the rest of it. */
  lemma PlanKeepsMeaning(fm: FloatModel, nodes: Nodes, filter: NodeFilter, stats: Stats)
    requires fm.Laws()
    ensures var plan := PlanMatchNodes(fm, filter, stats);
            Finds(fm, nodes, plan) == Matches(fm, nodes, filter) <==> PlanAgrees(fm, nodes, plan)
  {
    hide PropertyIndex.Matching, BestIndexed, WithoutCondition, Matches, NodeFilter.Matches, FloatModel.Laws,
         IndexAgrees;
    var plan := PlanMatchNodes(fm, filter, stats);
    match plan
    case PropertyIndexScan(_, _, _, _) =>
      var _ := BestIsBest(filter.conditions, stats);
      PropertyScanMatches(fm, nodes, filter, BestIndexed(filter.conditions, stats).value, plan);
    case LabelIndexScan(_, _) => LabelScanMatches(fm, nodes, filter);
    case _ =>
  }

  lemma PropertyScanMatches(fm: FloatModel, nodes: Nodes, filter: NodeFilter, best: Condition, plan: Plan)
    requires fm.Laws() && best in filter.conditions
    requires plan == PropertyIndexScan(best.key, best.op, best.value, WithoutCondition(fm, filter, best))
    ensures Finds(fm, nodes, plan) == Matches(fm, nodes, filter) <==> PlanAgrees(fm, nodes, plan)
  {
    hide PropertyIndex.Matching, WithoutCondition, NodeFilter.Matches, Condition.Matches, IndexAgrees,
         FloatModel.OrderLaws, FloatModel.CompareLaws;
    FoundAreLive(fm, nodes, best);
    forall id | id in nodes
      ensures filter.Matches(fm, nodes[id])
         <==> best.Matches(fm, nodes[id].properties) && plan.remaining.Matches(fm, nodes[id])
      ensures (id in PropertyIndex.Matching(fm, nodes, best.key, best.op, best.value)
               <==> best.Matches(fm, nodes[id].properties))
         <==> (best.key in nodes[id].properties ==>
                 IndexAgrees(fm, best.op, nodes[id].properties[best.key], best.value))
    {
      RemainingMatches(fm, filter, best, nodes[id]);
      IndexFinds(fm, nodes, best, id);
    }
    ScanCompares(fm, nodes, filter, best, plan);
  }

  /** Node by node, the plan and the scan part where the index and the condition part. */
  lemma ScanCompares(fm: FloatModel, nodes: Nodes, filter: NodeFilter, best: Condition, plan: Plan)
    requires plan.PropertyIndexScan? && plan.field == best.key && plan.op == best.op && plan.value == best.value
    requires PropertyIndex.Matching(fm, nodes, best.key, best.op, best.value) <= nodes.Keys
    requires forall id | id in nodes :: filter.Matches(fm, nodes[id])
               <==> best.Matches(fm, nodes[id].properties) && plan.remaining.Matches(fm, nodes[id])
    requires forall id | id in nodes ::
               (id in PropertyIndex.Matching(fm, nodes, best.key, best.op, best.value)
                <==> best.Matches(fm, nodes[id].properties))
               <==> (best.key in nodes[id].properties ==>
                       IndexAgrees(fm, best.op, nodes[id].properties[best.key], best.value))
    ensures Finds(fm, nodes, plan) == Matches(fm, nodes, filter) <==> PlanAgrees(fm, nodes, plan)
  {
    hide PropertyIndex.Matching, NodeFilter.Matches, Condition.Matches, IndexAgrees;
    var found, wanted := Finds(fm, nodes, plan), Matches(fm, nodes, filter);
    forall id: NodeId
      ensures (id in found <==> id in wanted)
         <==> (id in Matches(fm, nodes, plan.remaining) && plan.field in nodes[id].properties ==>
                 IndexAgrees(fm, plan.op, nodes[id].properties[plan.field], plan.value))
    {
    }
  }

  lemma LabelScanMatches(fm: FloatModel, nodes: Nodes, filter: NodeFilter)
    requires filter.lbl.Some?
    ensures LabelIndex.WithLabel(nodes, ScanLabel(filter)) * Matches(fm, nodes, filter) == Matches(fm, nodes, filter)
  {
  }

  /** No condition meets a live value that mixes with it: then every plan keeps the meaning. */
  lemma UnmixedPlans(fm: FloatModel, nodes: Nodes, filter: NodeFilter, stats: Stats)
    requires fm.Laws()
    requires forall c, id :: c in filter.conditions && id in nodes && c.key in nodes[id].properties ==>
               !Mixes(fm, c.op, nodes[id].properties[c.key], c.value)
    ensures Finds(fm, nodes, PlanMatchNodes(fm, filter, stats)) == Matches(fm, nodes, filter)
  {
    hide PropertyIndex.Matching, BestIndexed, WithoutCondition, NodeFilter.Matches, FloatModel.Laws, IndexAgrees,
         Mixes, Finds;
    PlanKeepsMeaning(fm, nodes, filter, stats);
    var plan := PlanMatchNodes(fm, filter, stats);
    if plan.PropertyIndexScan? {
      var i := BestIsBest(filter.conditions, stats);
      var best := filter.conditions[i];
      forall id | id in Matches(fm, nodes, plan.remaining) && plan.field in nodes[id].properties
        ensures IndexAgrees(fm, plan.op, nodes[id].properties[plan.field], plan.value)
      {
        assert best in filter.conditions;
        UnmixedAgree(fm, best.op, nodes[id].properties[best.key], best.value);
      }
    }
  }

  /** A node holding 5, sought by `= 5.0`: the scan finds it, a property index plan does not. */
  lemma PlanMissesFive(fm: FloatModel, n: Node, key: string, stats: Stats)
    requires fm.Laws() && fm.ofInt(5) == FIVE && n.properties == map[key := Integer(5)]
    requires key in stats.indexedNodeFields && stats.propertyIndexCost < stats.nodeCount
    ensures var filter := NodeFilter(None, [Condition(key, Eq, Float(FIVE))]);
            var nodes := map[n.id := n];
            Matches(fm, nodes, filter) == {n.id} && Finds(fm, nodes, PlanMatchNodes(fm, filter, stats)) == {}
  {
    hide FloatModel.Laws, CompareKeys, CompareValues;
    var c := Condition(key, Eq, Float(FIVE));
    var filter, nodes := NodeFilter(None, [c]), map[n.id := n];
    FiveIsMissed(fm);
    assert c.Matches(fm, n.properties);
    assert filter.conditions[..0] == [] && filter.conditions[0] == c;
    assert BestIndexed([], stats) == None;
    assert BestIndexed(filter.conditions, stats) == Some(c);
  }
}
