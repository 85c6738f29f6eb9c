/** What the conditions of a query ask, spelled out beside the comparisons of src/query/ast.rs. */
module Conditions {
  import opened Core
  import opened QueryAst
  import opened TextOrder
  import PropertyIndex

  predicate NumbersMeet(op: Op, a: int, b: int) {
    match op
    case Eq => a == b
    case NotEq => a != b
    case Lt => a < b
    case LtEq => a <= b
    case Gt => a > b
    case GtEq => a >= b
  }

  /** By the first difference, in either direction. */
  ghost predicate TextsMeet(op: Op, a: string, b: string) {
    match op
    case Eq => a == b
    case NotEq => a != b
    case Lt => exists k: nat :: SmallerAt(a, b, k)
    case LtEq => a == b || exists k: nat :: SmallerAt(a, b, k)
    case Gt => exists k: nat :: SmallerAt(b, a, k)
    case GtEq => a == b || exists k: nat :: SmallerAt(b, a, k)
  }

  /** Nothing holds of a NaN; `=` is closeness, and `!=` its opposite but for equal infinities. */
  predicate FloatsMeet(fm: FloatModel, op: Op, a: F64, b: F64) {
    fm.number(a) && fm.number(b) &&
    match op
    case Eq => fm.compare(Eq, a, b)
    case NotEq => !fm.SameKey(a, b) && !fm.compare(Eq, a, b)
    case Lt => fm.Less(a, b)
    case LtEq => fm.Less(a, b) || fm.SameKey(a, b)
    case Gt => fm.Less(b, a)
    case GtEq => fm.Less(b, a) || fm.SameKey(a, b)
  }

  /** The stored value is on the left. Values of different kinds, and nulls, only meet `=`, when they
      are the same; integers meet floats as floats. */
  ghost predicate ValuesMeet(fm: FloatModel, op: Op, stored: Value, sought: Value) {
    if stored.Integer? && sought.Integer? then NumbersMeet(op, stored.i, sought.i)
    else if stored.Boolean? && sought.Boolean? then
      NumbersMeet(op, if stored.b then 1 else 0, if sought.b then 1 else 0)
    else if stored.Text? && sought.Text? then TextsMeet(op, stored.s, sought.s)
    else if stored.Float? && sought.Float? then FloatsMeet(fm, op, stored.f, sought.f)
    else if stored.Integer? && sought.Float? then FloatsMeet(fm, op, fm.ofInt(stored.i), sought.f)
    else if stored.Float? && sought.Integer? then FloatsMeet(fm, op, stored.f, fm.ofInt(sought.i))
    else op == Eq && stored == sought
  }

  ghost predicate PropertiesMeet(fm: FloatModel, conds: seq<Condition>, props: Properties) {
    forall i :: 0 <= i < |conds| ==>
      conds[i].key in props && ValuesMeet(fm, conds[i].op, props[conds[i].key], conds[i].value)
  }

  ghost predicate NodeMeets(fm: FloatModel, filter: NodeFilter, n: Node) {
    (filter.lbl.Some? ==> n.lbl == filter.lbl.value) && PropertiesMeet(fm, filter.conditions, n.properties)
  }

  ghost predicate EdgeMeets(fm: FloatModel, filter: EdgeFilter, e: Edge) {
    && (filter.lbl.Some? ==> e.lbl == filter.lbl.value)
    && (filter.weight.Some? ==> FloatsMeet(fm, filter.weight.value.op, e.weight, filter.weight.value.value))
    && PropertiesMeet(fm, filter.conditions, e.properties)
  }

  /** The same asked of an index: it keeps kinds apart, compares floats by their keys, NaN below all
      numbers, and finds nulls by `=` alone. */
  ghost predicate KeysMeet(fm: FloatModel, op: Op, stored: Value, sought: Value) {
    if stored.Integer? && sought.Integer? then NumbersMeet(op, stored.i, sought.i)
    else if stored.Boolean? && sought.Boolean? then
      NumbersMeet(op, if stored.b then 1 else 0, if sought.b then 1 else 0)
    else if stored.Text? && sought.Text? then TextsMeet(op, stored.s, sought.s)
    else if stored.Float? && sought.Float? then
      (var a, b := stored.f, sought.f;
       match op
       case Eq => fm.SameKey(a, b)
       case NotEq => !fm.equal(fm.key(a), b)
       case Lt => fm.Less(a, b)
       case LtEq => fm.Less(a, b) || fm.SameKey(a, b)
       case Gt => fm.Less(b, a)
       case GtEq => fm.Less(b, a) || fm.SameKey(a, b))
    else op == Eq && stored == sought == Null
  }

  // ---- The comparisons compute it ----

  lemma TextsCompare(op: Op, a: string, b: string)
    ensures CompareOrd(op, TextLess(a, b), a == b) <==> TextsMeet(op, a, b)
  {
    FoundDifference(a, b);
    FoundDifference(b, a);
    TextsOrdered(a, b);
    hide TextLess;
  }

  lemma FloatsCompare(fm: FloatModel, op: Op, a: F64, b: F64)
    requires fm.Laws()
    ensures fm.compare(op, a, b) <==> FloatsMeet(fm, op, a, b)
  {
    var same, less, more := fm.SameKey(a, b), fm.Less(a, b), fm.Less(b, a);
  }

  lemma ValuesCompare(fm: FloatModel, op: Op, stored: Value, sought: Value)
    requires fm.Laws()
    ensures CompareValues(fm, op, stored, sought) <==> ValuesMeet(fm, op, stored, sought)
  {
    hide FloatModel.Laws, TextLess, FloatsMeet, TextsMeet;
    match (stored, sought)
    case (Text(a), Text(b)) => TextsCompare(op, a, b);
    case (Float(a), Float(b)) => FloatsCompare(fm, op, a, b);
    case (Integer(a), Float(b)) => FloatsCompare(fm, op, fm.ofInt(a), b);
    case (Float(a), Integer(b)) => FloatsCompare(fm, op, a, fm.ofInt(b));
    case _ =>
  }

  lemma PropertiesCompare(fm: FloatModel, conds: seq<Condition>, props: Properties)
    requires fm.Laws()
    ensures AllMatch(fm, conds, props) <==> PropertiesMeet(fm, conds, props)
  {
    hide FloatModel.Laws, CompareValues, ValuesMeet;
    forall i | 0 <= i < |conds| && conds[i].key in props
      ensures CompareValues(fm, conds[i].op, props[conds[i].key], conds[i].value)
         <==> ValuesMeet(fm, conds[i].op, props[conds[i].key], conds[i].value)
    {
      ValuesCompare(fm, conds[i].op, props[conds[i].key], conds[i].value);
    }
  }

  /** A filter passes exactly the nodes that meet it. */
  lemma NodesCompare(fm: FloatModel, filter: NodeFilter, n: Node)
    requires fm.Laws()
    ensures filter.Matches(fm, n) <==> NodeMeets(fm, filter, n)
  {
    hide FloatModel.Laws, AllMatch, PropertiesMeet;
    PropertiesCompare(fm, filter.conditions, n.properties);
  }

  lemma EdgesCompare(fm: FloatModel, filter: EdgeFilter, e: Edge)
    requires fm.Laws()
    ensures filter.Matches(fm, e) <==> EdgeMeets(fm, filter, e)
  {
    hide FloatModel.Laws, AllMatch, PropertiesMeet, FloatsMeet;
    PropertiesCompare(fm, filter.conditions, e.properties);
    if filter.weight.Some? {
      FloatsCompare(fm, filter.weight.value.op, e.weight, filter.weight.value.value);
    }
  }

  lemma KeysCompare(fm: FloatModel, op: Op, stored: Value, sought: Value)
    requires fm.OrderLaws()
    ensures CompareKeys(fm, op, stored, sought) <==> KeysMeet(fm, op, stored, sought)
  {
    if stored.Text? && sought.Text? {
      hide FloatModel.OrderLaws, TextLess, TextsMeet;
      TextsCompare(op, stored.s, sought.s);
    } else if stored.Float? && sought.Float? {
      var same, less, more :=
        fm.SameKey(stored.f, sought.f), fm.Less(stored.f, sought.f), fm.Less(sought.f, stored.f);
    } else {
      hide FloatModel.OrderLaws, TextLess, TextsMeet;
    }
  }

  /** The nodes an index selects. */
  lemma IndexSelects(fm: FloatModel, nodes: map<NodeId, Node>, field: string, op: Op, sought: Value)
    requires fm.OrderLaws()
    ensures forall id :: id in PropertyIndex.Matching(fm, nodes, field, op, sought) <==>
              id in nodes && field in nodes[id].properties && KeysMeet(fm, op, nodes[id].properties[field], sought)
  {
    hide FloatModel.OrderLaws, CompareKeys, KeysMeet;
    forall id | id in nodes && field in nodes[id].properties
      ensures CompareKeys(fm, op, nodes[id].properties[field], sought)
         <==> KeysMeet(fm, op, nodes[id].properties[field], sought)
    {
      KeysCompare(fm, op, nodes[id].properties[field], sought);
    }
  }
}
