/** The query IR both parsers produce and the comparisons filters make, src/query/ast.rs. */
module QueryAst {
  import opened Core

  datatype Op = Eq | NotEq | Lt | LtEq | Gt | GtEq

  function OpText(op: Op): string {
    match op
    case Eq => "="
    case NotEq => "!="
    case Lt => "<"
    case LtEq => "<="
    case Gt => ">"
    case GtEq => ">="
  }

  /** What floats contribute: comparison of values (with its epsilon), plain equality, conversion
      of integers, and the total order of index keys, where `key` picks one pattern per class of
      equal keys; `number` tells numbers from NaN. */
  datatype FloatModel = FloatModel(
    compare: (Op, F64, F64) -> bool, equal: (F64, F64) -> bool, ofInt: I64 -> F64,
    key: F64 -> F64, keyLess: (F64, F64) -> bool, number: F64 -> bool, finite: F64 -> bool)
  {
    predicate SameKey(a: F64, b: F64) {
      key(a) == key(b)
    }

    predicate Less(a: F64, b: F64) {
      keyLess(key(a), key(b))
    }

    /** What holds of IEEE 754: comparisons of numbers follow the order of keys, but for equality,
        which is closeness and never holds of infinities; nothing compares with a NaN, which the
        index places below all numbers. */
    ghost predicate Laws() {
      OrderLaws() && CompareLaws()
    }

    ghost predicate OrderLaws() {
      && (forall a :: finite(a) ==> number(a))
      && (forall i :: finite(ofInt(i)))
      && (forall a :: number(key(a)) == number(a) && key(key(a)) == key(a))
      && (forall a, b :: SameKey(a, b) ==> number(a) == number(b) && finite(a) == finite(b) && !Less(a, b))
      && (forall a, b :: Less(a, b) ==> !Less(b, a))
      && (forall a, b :: SameKey(a, b) || Less(a, b) || Less(b, a))
      && (forall a, b :: !number(a) && number(b) ==> Less(a, b))
      && (forall a, b :: !number(a) && !number(b) ==> SameKey(a, b))
    }

    ghost predicate CompareLaws() {
      && (forall a, b :: equal(a, b) <==> number(a) && number(b) && SameKey(a, b))
      && (forall op, a, b :: compare(op, a, b) ==> number(a) && number(b))
      && (forall op, a, b :: number(a) && number(b) && IsOrder(op) ==>
            compare(op, a, b) == CompareOrd(op, Less(a, b), SameKey(a, b)))
      && (forall a, b :: number(a) && number(b) && SameKey(a, b) ==>
            compare(Eq, a, b) == finite(a) && !compare(NotEq, a, b))
      && (forall a, b :: number(a) && number(b) && !SameKey(a, b) ==> compare(NotEq, a, b) == !compare(Eq, a, b))
      && (forall op, a, b, b' :: SameKey(b, b') ==> compare(op, a, b) == compare(op, a, b'))
    }
  }

  predicate IsOrder(op: Op) {
    op != Eq && op != NotEq
  }

  /** A comparison in a total order. */
  predicate CompareOrd(op: Op, less: bool, equal: bool) {
    match op
    case Eq => equal
    case NotEq => !equal
    case Lt => less
    case LtEq => less || equal
    case Gt => !less && !equal
    case GtEq => !less
  }

  /** Strings compare by code points, which is the order of their UTF-8 bytes. */
  predicate TextLess(a: string, b: string) {
    b != [] && (a == [] || a[0] < b[0] || (a[0] == b[0] && TextLess(a[1..], b[1..])))
  }

  predicate BoolLess(a: bool, b: bool) {
    !a && b
  }

  predicate CompareValues(fm: FloatModel, op: Op, lhs: Value, rhs: Value) {
    match (lhs, rhs)
    case (Text(a), Text(b)) => CompareOrd(op, TextLess(a, b), a == b)
    case (Integer(a), Integer(b)) => CompareOrd(op, a < b, a == b)
    case (Float(a), Float(b)) => fm.compare(op, a, b)
    case (Integer(a), Float(b)) => fm.compare(op, fm.ofInt(a), b)
    case (Float(a), Integer(b)) => fm.compare(op, a, fm.ofInt(b))
    case (Boolean(a), Boolean(b)) => CompareOrd(op, BoolLess(a, b), a == b)
    case _ => op == Eq && lhs == rhs
  }

  datatype Condition = Condition(key: string, op: Op, value: Value) {
    predicate Matches(fm: FloatModel, props: Properties) {
      key in props && CompareValues(fm, op, props[key], value)
    }
  }

  predicate AllMatch(fm: FloatModel, conds: seq<Condition>, props: Properties) {
    forall i :: 0 <= i < |conds| ==> conds[i].Matches(fm, props)
  }

  datatype NodeFilter = NodeFilter(lbl: Option<string>, conditions: seq<Condition>) {
    predicate Matches(fm: FloatModel, n: Node) {
      (lbl.Some? ==> n.lbl == lbl.value) && AllMatch(fm, conditions, n.properties)
    }
  }

  datatype WeightCondition = WeightCondition(op: Op, value: F64)

  datatype EdgeFilter = EdgeFilter(lbl: Option<string>, weight: Option<WeightCondition>, conditions: seq<Condition>) {
    predicate Matches(fm: FloatModel, e: Edge) {
      && (lbl.Some? ==> e.lbl == lbl.value)
      && (weight.Some? ==> fm.compare(weight.value.op, e.weight, weight.value.value))
      && AllMatch(fm, conditions, e.properties)
    }
  }

  datatype TraversalKind = Bfs | Dfs

  datatype QueryCommand =
    | MatchNodes(nodeFilter: NodeFilter)
    | MatchEdges(edgeFilter: EdgeFilter)
    | GetNode(nodeId: NodeId)
    | GetEdge(edgeId: EdgeId)
    | Traverse(kind: TraversalKind, start: NodeId)
    | ShortestPath(from: NodeId, goal: NodeId)
    | CountNodes
    | CountEdges

  // ---- Filters, clause by clause ----

  const NO_NODE_FILTER := NodeFilter(None, [])
  const NO_EDGE_FILTER := EdgeFilter(None, None, [])

  datatype Clause = LabelIs(lbl: string) | WeightIs(weight: WeightCondition) | PropIs(condition: Condition)

  /** A later label replaces an earlier one; conditions add up. */
  function AddToNode(f: NodeFilter, c: Clause): NodeFilter {
    match c
    case LabelIs(l) => f.(lbl := Some(l))
    case PropIs(p) => f.(conditions := f.conditions + [p])
    case WeightIs(_) => f
  }

  function AddToEdge(f: EdgeFilter, c: Clause): EdgeFilter {
    match c
    case LabelIs(l) => f.(lbl := Some(l))
    case PropIs(p) => f.(conditions := f.conditions + [p])
    case WeightIs(w) => f.(weight := Some(w))
  }

  function BuildNode(f: NodeFilter, cs: seq<Clause>): NodeFilter
    decreases |cs|
  {
    if cs == [] then f else BuildNode(AddToNode(f, cs[0]), cs[1..])
  }

  function BuildEdge(f: EdgeFilter, cs: seq<Clause>): EdgeFilter
    decreases |cs|
  {
    if cs == [] then f else BuildEdge(AddToEdge(f, cs[0]), cs[1..])
  }

  function ConditionsOf(cs: seq<Clause>): seq<Condition>
    decreases |cs|
  {
    if cs == [] then []
    else (if cs[0].PropIs? then [cs[0].condition] else []) + ConditionsOf(cs[1..])
  }

  predicate LastLabel(cs: seq<Clause>, k: nat) {
    k < |cs| && cs[k].LabelIs? && forall i :: k < i < |cs| ==> !cs[i].LabelIs?
  }

  predicate LastWeight(cs: seq<Clause>, k: nat) {
    k < |cs| && cs[k].WeightIs? && forall i :: k < i < |cs| ==> !cs[i].WeightIs?
  }

  ghost predicate NoLabel(cs: seq<Clause>) {
    forall i :: 0 <= i < |cs| ==> !cs[i].LabelIs?
  }

  ghost predicate NoWeight(cs: seq<Clause>) {
    forall i :: 0 <= i < |cs| ==> !cs[i].WeightIs?
  }

  /** The conditions of a clause list add up in order. */
  lemma {:induction false} ConditionsAddUp(f: NodeFilter, g: EdgeFilter, cs: seq<Clause>)
    ensures BuildNode(f, cs).conditions == f.conditions + ConditionsOf(cs)
    ensures BuildEdge(g, cs).conditions == g.conditions + ConditionsOf(cs)
    decreases |cs|
  {
    if cs != [] {
      ConditionsAddUp(AddToNode(f, cs[0]), AddToEdge(g, cs[0]), cs[1..]);
    }
  }

  /** The last label and the last weight of a clause list rule. */
  lemma {:induction false} LastRules(f: NodeFilter, g: EdgeFilter, cs: seq<Clause>, k: nat)
    ensures LastLabel(cs, k) ==> BuildNode(f, cs).lbl == BuildEdge(g, cs).lbl == Some(cs[k].lbl)
    ensures LastWeight(cs, k) ==> BuildEdge(g, cs).weight == Some(cs[k].weight)
    ensures NoLabel(cs) ==> BuildNode(f, cs).lbl == f.lbl && BuildEdge(g, cs).lbl == g.lbl
    ensures NoWeight(cs) ==> BuildEdge(g, cs).weight == g.weight
    decreases |cs|
  {
    hide LastLabel, LastWeight, NoLabel, NoWeight;
    if cs == [] {
      assert !LastLabel(cs, k) && !LastWeight(cs, k) by { LastInside(cs, k); }
    } else {
      RestTold(cs, k);
      LastRules(AddToNode(f, cs[0]), AddToEdge(g, cs[0]), cs[1..], if k == 0 then 0 else k - 1);
    }
  }

  lemma LastInside(cs: seq<Clause>, k: nat)
    ensures LastLabel(cs, k) || LastWeight(cs, k) ==> k < |cs|
  {
  }

  lemma RestTold(cs: seq<Clause>, k: nat)
    requires cs != []
    ensures k > 0 && LastLabel(cs, k) ==> k < |cs| && LastLabel(cs[1..], k - 1)
    ensures k > 0 && LastWeight(cs, k) ==> k < |cs| && LastWeight(cs[1..], k - 1)
    ensures LastLabel(cs, 0) ==> cs[0].LabelIs? && NoLabel(cs[1..])
    ensures LastWeight(cs, 0) ==> cs[0].WeightIs? && NoWeight(cs[1..])
    ensures NoLabel(cs) ==> !cs[0].LabelIs? && NoLabel(cs[1..])
    ensures NoWeight(cs) ==> !cs[0].WeightIs? && NoWeight(cs[1..])
  {
    var rest := cs[1..];
    assert forall i :: 0 <= i < |rest| ==> rest[i] == cs[i + 1];
  }

  function PropClauses(conds: seq<Condition>): seq<Clause> {
    seq(|conds|, i requires 0 <= i < |conds| => PropIs(conds[i]))
  }

  function LabelClause(l: Option<string>): seq<Clause> {
    if l.Some? then [LabelIs(l.value)] else []
  }

  function WeightClause(w: Option<WeightCondition>): seq<Clause> {
    if w.Some? then [WeightIs(w.value)] else []
  }

  lemma {:induction false} BuildNodeProps(f: NodeFilter, conds: seq<Condition>)
    ensures BuildNode(f, PropClauses(conds)) == f.(conditions := f.conditions + conds)
    decreases |conds|
  {
    if conds == [] {
      assert f.conditions + [] == f.conditions;
    } else {
      assert PropClauses(conds)[1..] == PropClauses(conds[1..]);
      BuildNodeProps(AddToNode(f, PropIs(conds[0])), conds[1..]);
      assert f.conditions + [conds[0]] + conds[1..] == f.conditions + conds;
    }
  }

  lemma {:induction false} BuildEdgeProps(f: EdgeFilter, conds: seq<Condition>)
    ensures BuildEdge(f, PropClauses(conds)) == f.(conditions := f.conditions + conds)
    decreases |conds|
  {
    if conds == [] {
      assert f.conditions + [] == f.conditions;
    } else {
      assert PropClauses(conds)[1..] == PropClauses(conds[1..]);
      BuildEdgeProps(AddToEdge(f, PropIs(conds[0])), conds[1..]);
      assert f.conditions + [conds[0]] + conds[1..] == f.conditions + conds;
    }
  }

  // ---- Index keys ----

  /** Index entries of one field live apart by type and compare by key, but `!=` is the plain one. */
  predicate CompareKeys(fm: FloatModel, op: Op, stored: Value, sought: Value) {
    match (stored, sought)
    case (Text(a), Text(b)) => CompareOrd(op, TextLess(a, b), a == b)
    case (Integer(a), Integer(b)) => CompareOrd(op, a < b, a == b)
    case (Float(a), Float(b)) =>
      if op == NotEq then !fm.equal(fm.key(a), b) else CompareOrd(op, fm.Less(a, b), fm.SameKey(a, b))
    case (Boolean(a), Boolean(b)) => CompareOrd(op, BoolLess(a, b), a == b)
    case (Null, Null) => op == Eq
    case _ => false
  }

  /** On which floats index and scan agree. */
  predicate FloatsAgree(fm: FloatModel, op: Op, a: F64, b: F64) {
    match op
    case Eq => if fm.SameKey(a, b) then fm.finite(a) else !fm.compare(Eq, a, b)
    case NotEq => fm.number(a) && fm.number(b) && (fm.SameKey(a, b) || !fm.compare(Eq, a, b))
    case Lt => fm.number(a) || !fm.number(b)
    case LtEq => fm.number(a)
    case Gt => !fm.number(a) || fm.number(b)
    case GtEq => fm.number(b)
  }

  /** On which values they do: without floats always; on an integer and a float, which the index
      keeps apart, when the scan refuses the pair; on floats that are numbers always under the four
      order operators, and under the others unless they are close but not equal, or infinite. */
  predicate IndexAgrees(fm: FloatModel, op: Op, stored: Value, sought: Value) {
    match (stored, sought)
    case (Float(a), Float(b)) => FloatsAgree(fm, op, a, b)
    case (Integer(i), Float(b)) => !fm.compare(op, fm.ofInt(i), b)
    case (Float(a), Integer(i)) => !fm.compare(op, a, fm.ofInt(i))
    case _ => true
  }

  lemma IndexAgreesWithScan(fm: FloatModel, op: Op, stored: Value, sought: Value)
    requires fm.Laws()
    ensures CompareValues(fm, op, stored, sought) == CompareKeys(fm, op, stored, sought)
       <==> IndexAgrees(fm, op, stored, sought)
  {
    if stored.Float? && sought.Float? {
      FloatsAgreeExactly(fm, op, stored.f, sought.f);
    }
  }

  lemma FloatsAgreeExactly(fm: FloatModel, op: Op, a: F64, b: F64)
    requires fm.Laws()
    ensures fm.compare(op, a, b) == CompareKeys(fm, op, Float(a), Float(b)) <==> FloatsAgree(fm, op, a, b)
  {
    var same, less, more := fm.SameKey(a, b), fm.Less(a, b), fm.Less(b, a);
    assert fm.SameKey(fm.key(a), b) == same;
    assert fm.equal(fm.key(a), b) == (fm.number(a) && fm.number(b) && same);
  }

  /** Two numbers at least one of which is a float, other than floats under an order operator. */
  predicate Mixes(fm: FloatModel, op: Op, a: Value, b: Value) {
    match (a, b)
    case (Float(x), Float(y)) => !(IsOrder(op) && fm.number(x) && fm.number(y))
    case (Integer(_), Float(_)) => true
    case (Float(_), Integer(_)) => true
    case _ => false
  }

  lemma UnmixedAgree(fm: FloatModel, op: Op, stored: Value, sought: Value)
    requires !Mixes(fm, op, stored, sought)
    ensures IndexAgrees(fm, op, stored, sought)
  {
  }

  /** The bits of 5.0. */
  const FIVE: F64 := 0x4014_0000_0000_0000

  /** Five and 5.0: the scan takes them for equal, the index does not find one by the other. */
  lemma FiveIsMissed(fm: FloatModel)
    requires fm.Laws() && fm.ofInt(5) == FIVE
    ensures CompareValues(fm, Eq, Integer(5), Float(FIVE)) && !CompareKeys(fm, Eq, Integer(5), Float(FIVE))
  {
    assert fm.finite(fm.ofInt(5)) && fm.SameKey(FIVE, FIVE);
  }
}
