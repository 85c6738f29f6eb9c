/** Depth-first traversal with an explicit stack, src/algorithms/dfs.rs. */
module Dfs {
  import opened Core
  import opened Engine
  import opened Walks

  function Targets(l: seq<Neighbor>): seq<NodeId> {
    seq(|l|, i requires 0 <= i < |l| => l[i].nodeId)
  }

  function Set(s: seq<NodeId>): set<NodeId> {
    set v | v in s
  }

  /** `all` bounds the search: it holds the nodes to try and everything the lists name. */
  ghost predicate Bounds(out: Lists, all: set<NodeId>, todo: seq<NodeId>) {
    Universe(out) <= all && forall v :: v in todo ==> v in all
  }

  /** The preorder of the recursive search that tries the nodes of `todo` in order and, at each
      new node, its neighbours from last to first. */
  ghost function Preorder(out: Lists, all: set<NodeId>, todo: seq<NodeId>, visited: set<NodeId>): seq<NodeId>
    requires Bounds(out, all, todo)
    decreases |all - visited|, |todo|
  {
    if todo == [] then []
    else if todo[0] in visited then Preorder(out, all, todo[1..], visited)
    else
      TargetsBounded(out, all, todo[0]);
      Shrinks(all, visited, visited + {todo[0]}, todo[0]);
      var below := Preorder(out, all, Reverse(Targets(NeighborsIn(out, todo[0]))), visited + {todo[0]});
      var visited' := visited + {todo[0]} + Set(below);
      Shrinks(all, visited, visited', todo[0]);
      [todo[0]] + below + Preorder(out, all, todo[1..], visited')
  }

  lemma Shrinks(all: set<NodeId>, visited: set<NodeId>, visited': set<NodeId>, v: NodeId)
    requires v in all && v !in visited && v in visited' && visited <= visited'
    ensures |all - visited'| < |all - visited|
  {
    SubsetSize(all - visited', all - visited - {v});
  }

  lemma {:induction false} SubsetSize(a: set<NodeId>, b: set<NodeId>)
    requires a <= b
    ensures |a| <= |b|
    decreases |a|
  {
    if a != {} {
      var v :| v in a;
      SubsetSize(a - {v}, b - {v});
    }
  }

  lemma TargetsBounded(out: Lists, all: set<NodeId>, u: NodeId)
    requires Universe(out) <= all
    ensures Bounds(out, all, Targets(NeighborsIn(out, u)))
    ensures Bounds(out, all, Reverse(Targets(NeighborsIn(out, u))))
  {
    var l := NeighborsIn(out, u);
    forall v | v in Targets(l) ensures v in all {
      var i :| 0 <= i < |l| && l[i].nodeId == v;
      InUniverse(out, u, l[i]);
    }
  }

  /** What the search from a new node visits below it. */
  ghost function Below(out: Lists, all: set<NodeId>, u: NodeId, visited: set<NodeId>): seq<NodeId>
    requires Universe(out) <= all
  {
    TargetsBounded(out, all, u);
    Preorder(out, all, Reverse(Targets(NeighborsIn(out, u))), visited + {u})
  }

  ghost function SeenBelow(out: Lists, all: set<NodeId>, u: NodeId, visited: set<NodeId>): set<NodeId>
    requires Universe(out) <= all
  {
    visited + {u} + Set(Below(out, all, u, visited))
  }

  lemma PreorderNew(out: Lists, all: set<NodeId>, todo: seq<NodeId>, visited: set<NodeId>)
    requires Bounds(out, all, todo) && todo != [] && todo[0] !in visited
    ensures Preorder(out, all, todo, visited)
         == [todo[0]] + Below(out, all, todo[0], visited)
            + Preorder(out, all, todo[1..], SeenBelow(out, all, todo[0], visited))
    ensures |all - (visited + {todo[0]})| < |all - visited|
    ensures |all - SeenBelow(out, all, todo[0], visited)| < |all - visited|
    ensures SeenBelow(out, all, todo[0], visited) == visited + Set([todo[0]] + Below(out, all, todo[0], visited))
  {
    Shrinks(all, visited, visited + {todo[0]}, todo[0]);
    Shrinks(all, visited, SeenBelow(out, all, todo[0], visited), todo[0]);
  }

  /** Trying two lists in turn. */
  lemma {:induction false} PreorderConcat(out: Lists, all: set<NodeId>, a: seq<NodeId>, b: seq<NodeId>,
                                          visited: set<NodeId>)
    requires Bounds(out, all, a) && Bounds(out, all, b)
    ensures Bounds(out, all, a + b)
    ensures var first := Preorder(out, all, a, visited);
            Preorder(out, all, a + b, visited) == first + Preorder(out, all, b, visited + Set(first))
    decreases |all - visited|, |a|
  {
    if a == [] {
      assert a + b == b && visited + Set([]) == visited;
    } else {
      assert forall v :: v in a + b <==> v in a || v in b;
      assert (a + b)[1..] == a[1..] + b;
      if a[0] in visited {
        PreorderConcat(out, all, a[1..], b, visited);
      } else {
        ConcatNew(out, all, a, b, visited);
      }
    }
  }

  lemma {:induction false} ConcatNew(out: Lists, all: set<NodeId>, a: seq<NodeId>, b: seq<NodeId>, visited: set<NodeId>)
    requires Bounds(out, all, a) && Bounds(out, all, b) && Bounds(out, all, a + b)
    requires a != [] && a[0] !in visited && (a + b)[1..] == a[1..] + b
    ensures var first := Preorder(out, all, a, visited);
            Preorder(out, all, a + b, visited) == first + Preorder(out, all, b, visited + Set(first))
    decreases |all - visited|, |a|, 0
  {
    hide Preorder, Universe, Below, SeenBelow;
    PreorderNew(out, all, a, visited);
    PreorderNew(out, all, a + b, visited);
    var top := [a[0]] + Below(out, all, a[0], visited);
    var seen := SeenBelow(out, all, a[0], visited);
    PreorderConcat(out, all, a[1..], b, seen);
    var rest := Preorder(out, all, a[1..], seen);
    assert seen + Set(rest) == visited + Set(top + rest);
  }

  /** The neighbours the loop pushes: those not visited yet. */
  function Unvisited(l: seq<NodeId>, visited: set<NodeId>): (r: seq<NodeId>)
    ensures forall v :: v in r ==> v in l
  {
    if l == [] then []
    else
      assert l == l[..|l| - 1] + [l[|l| - 1]];
      Unvisited(l[..|l| - 1], visited) + if l[|l| - 1] in visited then [] else [l[|l| - 1]]
  }

  lemma {:induction false} ReverseConcat(a: seq<NodeId>, b: seq<NodeId>)
    ensures Reverse(a + b) == Reverse(b) + Reverse(a)
    decreases |b|
  {
    if b == [] {
      assert a + b == a;
    } else {
      var init, last := b[..|b| - 1], b[|b| - 1];
      assert a + b == (a + init) + [last] && b == init + [last];
      ReverseConcat(a, init);
      ReverseSnoc(a + init, last);
      ReverseSnoc(init, last);
    }
  }

  /** Leaving out nodes that are already visited changes nothing. */
  lemma {:induction false} UnvisitedSuffice(out: Lists, all: set<NodeId>, l: seq<NodeId>, visited: set<NodeId>,
                                            rest: set<NodeId>)
    requires Bounds(out, all, l) && visited <= rest
    ensures Preorder(out, all, Reverse(Unvisited(l, visited)), rest) == Preorder(out, all, Reverse(l), rest)
    decreases |all - rest|, |l|
  {
    if l != [] {
      var init, last := l[..|l| - 1], l[|l| - 1];
      assert l == init + [last] && last in l;
      assert Reverse(l)[1..] == Reverse(init);
      if last in visited {
        assert Unvisited(l, visited) == Unvisited(init, visited);
        UnvisitedSuffice(out, all, init, visited, rest);
      } else {
        ReverseSnoc(Unvisited(init, visited), last);
        var u := Reverse(Unvisited(l, visited));
        assert u[0] == last && u[1..] == Reverse(Unvisited(init, visited));
        if last in rest {
          UnvisitedSuffice(out, all, init, visited, rest);
        } else {
          TargetsBounded(out, all, last);
          var below := Preorder(out, all, Reverse(Targets(NeighborsIn(out, last))), rest + {last});
          Shrinks(all, rest, rest + {last} + Set(below), last);
          UnvisitedSuffice(out, all, init, visited, rest + {last} + Set(below));
        }
      }
    }
  }

  lemma PushedOnTop(out: Lists, all: set<NodeId>, stack: seq<NodeId>, pushed: seq<NodeId>, visited: set<NodeId>)
    requires Bounds(out, all, stack) && Bounds(out, all, pushed)
    ensures Bounds(out, all, stack + pushed)
    ensures var first := Preorder(out, all, Reverse(pushed), visited);
            Preorder(out, all, Reverse(stack + pushed), visited) ==
            first + Preorder(out, all, Reverse(stack), visited + Set(first))
  {
    hide Preorder;
    ReverseConcat(stack, pushed);
    PreorderConcat(out, all, Reverse(pushed), Reverse(stack), visited);
  }

  /** One iteration of the stack loop at a new node. */
  lemma Expand(out: Lists, all: set<NodeId>, current: NodeId, stack: seq<NodeId>, visited: set<NodeId>)
    requires Bounds(out, all, stack) && current in all && current !in visited
    ensures var pushed := Unvisited(Targets(NeighborsIn(out, current)), visited + {current});
            && Bounds(out, all, stack + pushed)
            && Preorder(out, all, Reverse(stack + [current]), visited)
               == [current] + Preorder(out, all, Reverse(stack + pushed), visited + {current})
  {
    hide Universe, Reverse, NeighborsIn, Targets, Preorder;
    var l := Targets(NeighborsIn(out, current));
    var seen := visited + {current};
    var pushed := Unvisited(l, seen);
    TargetsBounded(out, all, current);
    UnvisitedSuffice(out, all, l, seen, seen);
    PushedOnTop(out, all, stack, pushed, seen);
    ReverseSnoc(stack, current);
    PreorderNew(out, all, [current] + Reverse(stack), visited);
  }

  lemma Revisit(out: Lists, all: set<NodeId>, current: NodeId, stack: seq<NodeId>, visited: set<NodeId>)
    requires Bounds(out, all, stack) && current in all && current in visited
    ensures Preorder(out, all, Reverse(stack + [current]), visited) == Preorder(out, all, Reverse(stack), visited)
  {
    ReverseSnoc(stack, current);
    assert ([current] + Reverse(stack))[1..] == Reverse(stack);
  }

  // ---- What the preorder visits ----

  ghost predicate ClosedUnderSteps(out: Lists, s: set<NodeId>) {
    forall u, n :: u in s && n in NeighborsIn(out, u) ==> n.nodeId in s
  }

  /** The neighbours of the visited nodes are visited. */
  ghost predicate StepsInside(out: Lists, p: seq<NodeId>, seen: set<NodeId>) {
    forall u, n :: u in p && n in NeighborsIn(out, u) ==> n.nodeId in seen
  }

  /** `p` visits new nodes only, each once, and in the end every node of `todo` is visited and
      so are the neighbours of the nodes of `p`. */
  ghost predicate Visits(out: Lists, todo: seq<NodeId>, visited: set<NodeId>, p: seq<NodeId>) {
    && NoDup(p) && (forall v :: v in p ==> v !in visited)
    && (forall v :: v in todo ==> v in visited + Set(p))
    && StepsInside(out, p, visited + Set(p))
  }

  lemma VisitsCompose(out: Lists, u: NodeId, todo: seq<NodeId>, visited: set<NodeId>, below: seq<NodeId>,
                      rest: seq<NodeId>)
    requires u !in visited && Visits(out, Targets(NeighborsIn(out, u)), visited + {u}, below)
    requires Visits(out, todo, visited + {u} + Set(below), rest)
    ensures Visits(out, [u] + todo, visited, [u] + below + rest)
  {
    hide Targets, NeighborsIn;
    var p := [u] + below + rest;
    var seen := visited + {u} + Set(below);
    assert visited + Set(p) == seen + Set(rest);
    forall n | n in NeighborsIn(out, u) ensures n.nodeId in seen {
      TargetIn(NeighborsIn(out, u), n);
    }
    NoDupConcat([u], below);
    NoDupConcat([u] + below, rest);
    forall x, n | x in p && n in NeighborsIn(out, x) ensures n.nodeId in seen + Set(rest) {
      assert x == u || x in below || x in rest;
    }
  }

  lemma {:induction false} PreorderVisits(out: Lists, all: set<NodeId>, todo: seq<NodeId>, visited: set<NodeId>)
    requires Bounds(out, all, todo)
    ensures Visits(out, todo, visited, Preorder(out, all, todo, visited))
    decreases |all - visited|, |todo|
  {
    if todo != [] {
      assert todo == [todo[0]] + todo[1..];
      if todo[0] in visited {
        PreorderVisits(out, all, todo[1..], visited);
      } else {
        hide Visits, Preorder;
        var l := Targets(NeighborsIn(out, todo[0]));
        PreorderNew(out, all, todo, visited);
        TargetsBounded(out, all, todo[0]);
        PreorderVisits(out, all, Reverse(l), visited + {todo[0]});
        VisitsReversed(out, l, visited + {todo[0]}, Below(out, all, todo[0], visited));
        PreorderVisits(out, all, todo[1..], SeenBelow(out, all, todo[0], visited));
        VisitsCompose(out, todo[0], todo[1..], visited, Below(out, all, todo[0], visited),
                      Preorder(out, all, todo[1..], SeenBelow(out, all, todo[0], visited)));
      }
    }
  }

  lemma VisitsReversed(out: Lists, l: seq<NodeId>, visited: set<NodeId>, p: seq<NodeId>)
    requires Visits(out, Reverse(l), visited, p)
    ensures Visits(out, l, visited, p)
  {
  }

  lemma TargetIn(l: seq<Neighbor>, n: Neighbor)
    requires n in l
    ensures n.nodeId in Targets(l)
  {
    var i :| 0 <= i < |l| && l[i] == n;
    assert Targets(l)[i] == n.nodeId;
  }

  /** Nothing outside a closed set that holds the nodes to try. */
  lemma {:induction false} PreorderStays(out: Lists, all: set<NodeId>, todo: seq<NodeId>, visited: set<NodeId>,
                                         s: set<NodeId>)
    requires Bounds(out, all, todo) && ClosedUnderSteps(out, s) && forall v :: v in todo ==> v in s
    ensures forall v :: v in Preorder(out, all, todo, visited) ==> v in s
    decreases |all - visited|, |todo|
  {
    hide Universe, Reverse;
    if todo != [] {
      assert todo == [todo[0]] + todo[1..];
      if todo[0] in visited {
        PreorderStays(out, all, todo[1..], visited, s);
      } else {
        hide Preorder, ClosedUnderSteps;
        var u := todo[0];
        PreorderNew(out, all, todo, visited);
        TargetsBounded(out, all, u);
        TargetsStay(out, u, s);
        PreorderStays(out, all, Reverse(Targets(NeighborsIn(out, u))), visited + {u}, s);
        PreorderStays(out, all, todo[1..], SeenBelow(out, all, u, visited), s);
      }
    }
  }

  lemma TargetsStay(out: Lists, u: NodeId, s: set<NodeId>)
    requires ClosedUnderSteps(out, s) && u in s
    ensures forall v :: v in Reverse(Targets(NeighborsIn(out, u))) ==> v in s
  {
    var l := NeighborsIn(out, u);
    forall v | v in Targets(l) ensures v in s {
      var i :| 0 <= i < |l| && l[i].nodeId == v;
      assert l[i] in l;
    }
  }

  /** The recursive search from `start`. */
  ghost function DepthFirst(out: Lists, start: NodeId): seq<NodeId> {
    Preorder(out, Universe(out) + {start}, [start], {})
  }

  // ---- The order, told without the recursion ----

  /** The last entry that is not seen yet leads to `v`. */
  ghost predicate LastUnseen(l: seq<Neighbor>, seen: seq<NodeId>, v: NodeId) {
    exists k :: 0 <= k < |l| && l[k].nodeId == v && v !in seen
                && forall j :: k < j < |l| ==> l[j].nodeId in seen
  }

  ghost predicate FirstUnseen(todo: seq<NodeId>, seen: seq<NodeId>, v: NodeId) {
    exists k :: 0 <= k < |todo| && todo[k] == v && v !in seen && forall j :: 0 <= j < k ==> todo[j] in seen
  }

  /** `p` is the latest of the nodes seen with a neighbour to go to, and its last such one is `v`. */
  ghost predicate NextFrom(out: Lists, seen: seq<NodeId>, p: nat, v: NodeId) {
    && p < |seen| && LastUnseen(NeighborsIn(out, seen[p]), seen, v)
    && StepsInside(out, seen[p + 1..], Set(seen))
  }

  ghost predicate GoesOn(out: Lists, before: nat, todo: seq<NodeId>, seen: seq<NodeId>, v: NodeId)
    requires before <= |seen|
  {
    || (exists p :: before <= p < |seen| && NextFrom(out, seen, p, v))
    || (StepsInside(out, seen[before..], Set(seen)) && FirstUnseen(todo, seen, v))
  }

  lemma ReversedFirst(l: seq<Neighbor>, seen: seq<NodeId>, v: NodeId)
    requires FirstUnseen(Reverse(Targets(l)), seen, v)
    ensures LastUnseen(l, seen, v)
  {
    var r := Reverse(Targets(l));
    var k :| 0 <= k < |r| && r[k] == v && v !in seen && forall j :: 0 <= j < k ==> r[j] in seen;
    ReverseAt(Targets(l), k);
    forall j | |l| - 1 - k < j < |l| ensures l[j].nodeId in seen {
      ReverseAt(Targets(l), |l| - 1 - j);
      assert r[|l| - 1 - j] == l[j].nodeId;
    }
    assert l[|l| - 1 - k].nodeId == v;
  }

  lemma {:induction false} ReverseAt(s: seq<NodeId>, k: nat)
    requires k < |s|
    ensures Reverse(s)[k] == s[|s| - 1 - k]
    decreases |s|
  {
    if k > 0 {
      ReverseAt(s[..|s| - 1], k - 1);
    }
  }

  /** The preorder from a new node on: the node, what is below it, and the others to try. */
  lemma PreorderSplit(out: Lists, all: set<NodeId>, todo: seq<NodeId>, before: seq<NodeId>)
    requires Bounds(out, all, todo) && todo != [] && todo[0] !in before
    ensures var u, l := todo[0], Reverse(Targets(NeighborsIn(out, todo[0])));
            && Bounds(out, all, l) && Bounds(out, all, todo[1..])
            && var below := Preorder(out, all, l, Set(before + [u]));
               && below == Below(out, all, u, Set(before))
               && Preorder(out, all, todo, Set(before))
                  == [u] + below + Preorder(out, all, todo[1..], Set(before + [u] + below))
               && |all - Set(before + [u])| < |all - Set(before)|
               && |all - Set(before + [u] + below)| < |all - Set(before)|
  {
    hide Preorder, Universe, Reverse, Targets, NeighborsIn;
    assert todo == [todo[0]] + todo[1..];
    TargetsBounded(out, all, todo[0]);
    PreorderNew(out, all, todo, Set(before));
    assert Set(before + [todo[0]]) == Set(before) + {todo[0]};
    var below := Below(out, all, todo[0], Set(before));
    assert Set(before + [todo[0]] + below) == SeenBelow(out, all, todo[0], Set(before));
  }

  lemma PreorderSkip(out: Lists, all: set<NodeId>, todo: seq<NodeId>, before: seq<NodeId>)
    requires Bounds(out, all, todo) && todo != [] && todo[0] in before
    ensures Bounds(out, all, todo[1..])
    ensures Preorder(out, all, todo, Set(before)) == Preorder(out, all, todo[1..], Set(before))
  {
    assert todo == [todo[0]] + todo[1..];
  }

  lemma PreorderNone(out: Lists, all: set<NodeId>, visited: set<NodeId>)
    requires Bounds(out, all, [])
    ensures Preorder(out, all, [], visited) == []
  {
  }

  lemma StartsHere(out: Lists, todo: seq<NodeId>, before: seq<NodeId>)
    requires todo != [] && todo[0] !in before
    ensures GoesOn(out, |before|, todo, before, todo[0])
  {
    assert before[|before|..] == [];
    assert FirstUnseen(todo, before, todo[0]);
  }

  lemma {:induction false} PreorderGoesOn(out: Lists, all: set<NodeId>, todo: seq<NodeId>, before: seq<NodeId>, i: nat)
    requires Bounds(out, all, todo) && i < |Preorder(out, all, todo, Set(before))|
    ensures var p := Preorder(out, all, todo, Set(before));
            GoesOn(out, |before|, todo, before + p[..i], p[i])
    decreases |all - Set(before)|, |todo|
  {
    hide Preorder, Universe, GoesOn, Bounds, Reverse, Targets, NeighborsIn, Below, Set;
    if todo == [] {
      PreorderNone(out, all, Set(before));
      assert false;
    }
    var p, u := Preorder(out, all, todo, Set(before)), todo[0];
    if u in before {
      PreorderSkip(out, all, todo, before);
      PreorderGoesOn(out, all, todo[1..], before, i);
      SkipFirst(out, |before|, todo, before + p[..i], p[i]);
    } else {
      PreorderSplit(out, all, todo, before);
      var l := Reverse(Targets(NeighborsIn(out, u)));
      var below := Preorder(out, all, l, Set(before + [u]));
      if i == 0 {
        assert before + p[..0] == before;
        StartsHere(out, todo, before);
      } else if i <= |below| {
        PreorderGoesOn(out, all, l, before + [u], i - 1);
        assert before + p[..i] == before + [u] + below[..i - 1] && p[i] == below[i - 1];
        IntoBelow(out, before, todo, below, i - 1);
      } else {
        var mid := before + [u] + below;
        var rest := Preorder(out, all, todo[1..], Set(mid));
        var j := i - 1 - |below|;
        assert before + p[..i] == mid + rest[..j] && p[i] == rest[j];
        PreorderGoesOn(out, all, todo[1..], mid, j);
        InAll(out, all, todo);
        AfterBelow(out, all, todo, before, below, rest, j);
      }
    }
  }

  lemma InAll(out: Lists, all: set<NodeId>, todo: seq<NodeId>)
    requires Bounds(out, all, todo) && todo != []
    ensures Universe(out) <= all && todo[0] in all
  {
  }

  lemma SkipFirst(out: Lists, before: nat, todo: seq<NodeId>, seen: seq<NodeId>, v: NodeId)
    requires before <= |seen| && todo != [] && todo[0] in seen && GoesOn(out, before, todo[1..], seen, v)
    ensures GoesOn(out, before, todo, seen, v)
  {
    if FirstUnseen(todo[1..], seen, v) {
      var k :| 0 <= k < |todo[1..]| && todo[1..][k] == v && v !in seen
               && forall j :: 0 <= j < k ==> todo[1..][j] in seen;
      assert todo[k + 1] == v && forall j :: 0 < j < k + 1 ==> todo[j] == todo[1..][j - 1];
    }
  }

  /** The first node below not seen yet is the last neighbour to go to. */
  lemma IntoBelow(out: Lists, before: seq<NodeId>, todo: seq<NodeId>, below: seq<NodeId>, i: nat)
    requires todo != [] && i < |below|
    requires GoesOn(out, |before| + 1, Reverse(Targets(NeighborsIn(out, todo[0]))),
                    before + [todo[0]] + below[..i], below[i])
    ensures GoesOn(out, |before|, todo, before + [todo[0]] + below[..i], below[i])
  {
    hide Reverse, Targets, LastUnseen, StepsInside, Set, FirstUnseen, NeighborsIn;
    var b: nat, seen, l := |before|, before + [todo[0]] + below[..i], NeighborsIn(out, todo[0]);
    assert seen[b] == todo[0];
    if p :| b + 1 <= p < |seen| && NextFrom(out, seen, p, below[i]) {
      assert b <= p;
    } else {
      ReversedFirst(l, seen, below[i]);
      assert NextFrom(out, seen, b, below[i]);
    }
  }

  lemma AfterBelow(out: Lists, all: set<NodeId>, todo: seq<NodeId>, before: seq<NodeId>, below: seq<NodeId>,
                   rest: seq<NodeId>, j: nat)
    requires todo != [] && Universe(out) <= all && todo[0] in all && todo[0] !in before
    requires below == Below(out, all, todo[0], Set(before)) && j < |rest|
    requires GoesOn(out, |before + [todo[0]] + below|, todo[1..], before + [todo[0]] + below + rest[..j], rest[j])
    ensures GoesOn(out, |before|, todo, before + [todo[0]] + below + rest[..j], rest[j])
  {
    hide Universe, FirstUnseen, NextFrom, StepsInside, Below, Set;
    var u := todo[0];
    var mid := before + [u] + below;
    var seen := mid + rest[..j];
    BelowDone(out, all, u, before);
    assert seen[|mid|..] == rest[..j];
    if StepsInside(out, rest[..j], Set(seen)) {
      DoneTogether(out, before, u, below, rest[..j]);
    }
    assert u in seen && GoesOn(out, |before|, todo[1..], seen, rest[j]);
    SkipFirst(out, |before|, todo, seen, rest[j]);
  }

  /** Once the search below a node is over, neither it nor the nodes below have a neighbour to go to. */
  lemma BelowDone(out: Lists, all: set<NodeId>, u: NodeId, before: seq<NodeId>)
    requires Universe(out) <= all && u in all && u !in before
    ensures var below := Below(out, all, u, Set(before));
            StepsInside(out, [u] + below, Set(before + [u] + below))
  {
    hide Universe, Preorder;
    var below, l := Below(out, all, u, Set(before)), NeighborsIn(out, u);
    TargetsBounded(out, all, u);
    PreorderVisits(out, all, Reverse(Targets(l)), Set(before) + {u});
    assert Set(before) + {u} + Set(below) == Set(before + [u] + below);
    forall n | n in l ensures n.nodeId in Set(before + [u] + below) {
      TargetIn(l, n);
    }
  }

  lemma DoneTogether(out: Lists, before: seq<NodeId>, u: NodeId, below: seq<NodeId>, rest: seq<NodeId>)
    requires StepsInside(out, [u] + below, Set(before + [u] + below))
    requires StepsInside(out, rest, Set(before + [u] + below + rest))
    ensures StepsInside(out, (before + [u] + below + rest)[|before|..], Set(before + [u] + below + rest))
  {
    assert (before + [u] + below + rest)[|before|..] == [u] + below + rest;
  }

  /** Depth first: every node but the start is the last neighbour to go to of the node visited latest
      among those that have one. */
  lemma GoesDeepFirst(out: Lists, start: NodeId, i: nat)
    requires 0 < i < |DepthFirst(out, start)|
    ensures var p := DepthFirst(out, start);
            p[0] == start && exists k: nat :: NextFrom(out, p[..i], k, p[i])
  {
    var all, p := Universe(out) + {start}, DepthFirst(out, start);
    assert Set([]) == {};
    PreorderSplit(out, all, [start], []);
    PreorderGoesOn(out, all, [start], [], i);
    hide Universe, Preorder, NextFrom, StepsInside, Set, Reverse, Targets;
    assert [] + p[..i] == p[..i] && p[0] == start;
    NotAgain(p[..i], start, p[i]);
  }

  lemma NotAgain(seen: seq<NodeId>, start: NodeId, v: NodeId)
    requires seen != [] && seen[0] == start
    ensures !FirstUnseen([start], seen, v)
  {
  }

  /** It visits every reachable node once and nothing else. */
  lemma DepthFirstReaches(out: Lists, start: NodeId)
    ensures NoDup(DepthFirst(out, start))
    ensures forall v :: v in DepthFirst(out, start) <==> Reachable(out, start, v)
  {
    hide Universe, Preorder;
    var all := Universe(out) + {start};
    var p := DepthFirst(out, start);
    PreorderVisits(out, all, [start], {});
    assert start in [start] && {} + Set(p) == Set(p);
    var reach := set v | v in all && Reachable(out, start, v);
    ReachableClosed(out, start, all);
    PreorderStays(out, all, [start], {}, reach);
    forall v: NodeId | Reachable(out, start, v) ensures v in p {
      var steps :| IsWalk(out, start, steps) && End(start, steps) == v;
      ClosedHoldsWalk(out, Set(p), start, steps);
    }
  }

  lemma ReachableClosed(out: Lists, start: NodeId, all: set<NodeId>)
    requires Universe(out) <= all && start in all
    ensures var reach := set v | v in all && Reachable(out, start, v);
            start in reach && ClosedUnderSteps(out, reach)
  {
    hide Universe, NeighborsIn;
    assert IsWalk(out, start, []) && End(start, []) == start;
    forall u, n | Reachable(out, start, u) && n in NeighborsIn(out, u)
      ensures Reachable(out, start, n.nodeId) && n.nodeId in all
    {
      var steps :| IsWalk(out, start, steps) && End(start, steps) == u;
      ExtendWalk(out, start, steps, n);
      InUniverse(out, u, n);
    }
  }

  /** The stack loop visits in exactly the order of the recursive search. */
  method Traverse(engine: AdjacencyListEngine, start: NodeId) returns (order: seq<NodeId>)
    requires engine.Valid()
    ensures order == if engine.ContainsNode(start) then DepthFirst(engine.outgoing, start) else []
  {
    hide Represents, Universe, Preorder, Reverse, NeighborsIn, Targets, Unvisited, DepthFirst;
    order := [];
    if !engine.ContainsNode(start) {
      return;
    }
    ghost var out := engine.outgoing;
    ghost var all := Universe(out) + {start};
    var visited: set<NodeId> := {};
    var stack := [start];
    Begin(out, start);
    while stack != []
      invariant Bounds(out, all, stack)
      invariant DepthFirst(out, start) == order + Preorder(out, all, Reverse(stack), visited)
      decreases |all - visited|, |stack|
    {
      var current := stack[|stack| - 1];
      Pop(out, all, stack);
      stack := stack[..|stack| - 1];
      if current in visited {
        Revisit(out, all, current, stack, visited);
        continue;
      }
      Expand(out, all, current, stack, visited);
      Shrinks(all, visited, visited + {current}, current);
      visited := visited + {current};
      order := order + [current];
      ghost var below := stack;
      var neighbors := engine.NeighborsOutgoing(current);
      AllTargets(neighbors, visited);
      for i := 0 to |neighbors|
        invariant stack == below + Unvisited(Targets(neighbors)[..i], visited)
      {
        UnvisitedNext(neighbors, i, visited);
        if neighbors[i].nodeId !in visited {
          stack := stack + [neighbors[i].nodeId];
        }
      }
    }
    PreorderEmpty(out, all, visited);
  }

  lemma Begin(out: Lists, start: NodeId)
    ensures var all := Universe(out) + {start};
            && Bounds(out, all, [start])
            && DepthFirst(out, start) == [] + Preorder(out, all, Reverse([start]), {})
  {
    hide Universe, Preorder;
    ReverseSnoc([], start);
    assert [] + [start] == [start] && [start] + [] == [start];
  }

  lemma Pop(out: Lists, all: set<NodeId>, stack: seq<NodeId>)
    requires stack != [] && Bounds(out, all, stack)
    ensures stack == stack[..|stack| - 1] + [stack[|stack| - 1]]
    ensures Bounds(out, all, stack[..|stack| - 1]) && stack[|stack| - 1] in all
  {
  }

  lemma AllTargets(l: seq<Neighbor>, visited: set<NodeId>)
    ensures |Targets(l)| == |l| && Targets(l)[..|l|] == Targets(l)
    ensures Unvisited(Targets(l)[..0], visited) == []
  {
  }

  lemma UnvisitedNext(l: seq<Neighbor>, i: nat, visited: set<NodeId>)
    requires i < |l|
    ensures Unvisited(Targets(l)[..i + 1], visited)
         == Unvisited(Targets(l)[..i], visited) + if l[i].nodeId in visited then [] else [l[i].nodeId]
  {
    assert Targets(l)[..i + 1][..i] == Targets(l)[..i];
  }

  lemma PreorderEmpty(out: Lists, all: set<NodeId>, visited: set<NodeId>)
    requires Bounds(out, all, [])
    ensures Preorder(out, all, Reverse([]), visited) == []
  {
  }
}
