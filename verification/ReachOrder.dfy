/** The free reads of a node by its children: those of each child that runs, from left to right, less what the
    node binds around it. Two tables, of what runs and of what is bound, say for every form what the walk in
    native/crates/compiler/src/closures.rs does. */
module ReachOrder {
  import opened Transport
  import opened Closures

  /** Whether the child at `at` is code that can run. */
  predicate RunsAt(node: Node, at: nat)
    requires at < |Children(node)|
  {
    match node
    case Match(subject, arms, _) => at == 0 || !NeverEntered(arms[at - 1], subject.ty)
    case Call(reaches, arguments, _) => !NeverApplied(reaches, arguments[at])
    case Walk(_, around, _, _, _, takes, _, _, _, _) => at > |around| || !NeverRuns(takes)
    case Block(_, _, _, ty) => !(ty.Fn? && NeverRuns(ty.takes))
    case _ => true
  }

  function BoundAround(around: seq<Around>): set<nat> {
    set i | 0 <= i < |around| :: around[i].binding
  }

  /** What the node binds around the child at `at`. */
  function BoundAt(node: Node, at: nat): set<nat>
    requires at < |Children(node)|
  {
    match node
    case Let(binding, _, _, _, _) => if at == 1 then {binding} else {}
    case Attempt(_, values, binding, _, _, _, _) => if at == |values| then {binding} else {}
    case Match(_, arms, _) => if at == 0 then {} else ArmName(arms[at - 1].binding)
    case Walk(_, around, grown, each, _, _, _, _, _, _) =>
      if at < |around| then BoundAround(around[..at])
      else if at == |around| then BoundAround(around) + {grown, each}
      else {}
    case Block(_, parameters, _, _) => NumbersIn(parameters)
    case _ => {}
  }

  /** What one child adds. */
  function Added(node: Node, at: nat): seq<Reach>
    requires at < |Children(node)|
  {
    if RunsAt(node, at) then Without(FreeReads(Children(node)[at]), BoundAt(node, at)) else []
  }

  /** What the children before `n` add, one after another. */
  function AddedBefore(node: Node, n: nat): seq<Reach>
    requires n <= |Children(node)|
  {
    if n == 0 then [] else AddedBefore(node, n - 1) + Added(node, n - 1)
  }

  lemma {:induction false} WithoutNone(reaches: seq<Reach>)
    ensures Without(reaches, {}) == reaches
  {
    if reaches != [] {
      WithoutNone(reaches[..|reaches| - 1]);
      assert reaches == reaches[..|reaches| - 1] + [reaches[|reaches| - 1]];
    }
  }

  lemma OneMore(node: Node, n: nat)
    requires n < |Children(node)|
    ensures AddedBefore(node, n + 1) == AddedBefore(node, n) + Added(node, n)
  {
  }

  lemma AddedWhole(node: Node, at: nat)
    requires at < |Children(node)| && RunsAt(node, at) && BoundAt(node, at) == {}
    ensures Added(node, at) == FreeReads(Children(node)[at])
  {
    WithoutNone(FreeReads(Children(node)[at]));
  }

  /** Nodes in a row, all of them running with nothing bound around them, from the first child on. */
  lemma {:induction false} RowAdds(node: Node, nodes: seq<Node>, n: nat)
    requires n <= |nodes| <= |Children(node)| && Children(node)[..|nodes|] == nodes
    requires forall i :: 0 <= i < |nodes| ==> RunsAt(node, i) && BoundAt(node, i) == {}
    ensures AddedBefore(node, n) == FreeReadsAll(nodes[..n])
  {
    hide FreeReads, Children, RunsAt, BoundAt;
    if n > 0 {
      RowAdds(node, nodes, n - 1);
      AddedWhole(node, n - 1);
      assert nodes[..n][..n - 1] == nodes[..n - 1];
      assert Children(node)[n - 1] == nodes[n - 1];
    }
  }

  lemma ArgumentAdds(node: Node, i: nat)
    requires node.Call? && i < |node.arguments|
    ensures |Children(node)| == |node.arguments|
    ensures Added(node, i) == if NeverApplied(node.reaches, node.arguments[i]) then [] else FreeReads(node.arguments[i])
  {
    hide FreeReads;
    WithoutNone(FreeReads(node.arguments[i]));
  }

  lemma {:induction false} ArgumentsAdd(node: Node, n: nat)
    requires node.Call? && n <= |node.arguments|
    ensures AddedBefore(node, n) == ArgumentReads(node.reaches, node.arguments[..n])
  {
    hide FreeReads, Children, RunsAt, BoundAt, Added;
    if n > 0 {
      ArgumentsAdd(node, n - 1);
      ArgumentAdds(node, n - 1);
      OneMore(node, n - 1);
      assert node.arguments[..n][..n - 1] == node.arguments[..n - 1];
    }
  }

  lemma SubjectAdds(node: Node)
    requires node.Match?
    ensures |Children(node)| == |node.arms| + 1 && Added(node, 0) == FreeReads(node.subject)
  {
    hide FreeReads;
    AddedWhole(node, 0);
  }

  lemma ArmAdds(node: Node, i: nat)
    requires node.Match? && i < |node.arms|
    ensures |Children(node)| == |node.arms| + 1
    ensures Added(node, i + 1) == if NeverEntered(node.arms[i], node.subject.ty) then []
      else Without(FreeReads(node.arms[i].body), ArmName(node.arms[i].binding))
  {
    hide FreeReads;
    assert Children(node)[i + 1] == node.arms[i].body;
  }

  lemma {:induction false} ArmsAdd(node: Node, n: nat)
    requires node.Match? && n <= |node.arms|
    ensures AddedBefore(node, n + 1) == FreeReads(node.subject) + ArmReads(node.arms[..n], node.subject.ty)
  {
    hide FreeReads, Children, RunsAt, BoundAt, Added;
    SubjectAdds(node);
    if n == 0 {
      OneMore(node, 0);
    } else {
      ArmsAdd(node, n - 1);
      ArmAdds(node, n - 1);
      OneMore(node, n);
      assert node.arms[..n][..n - 1] == node.arms[..n - 1];
    }
  }

  lemma {:induction false} DeparturesAdd(node: Node, n: nat)
    requires node.Attempt? && n <= |node.departures|
    ensures AddedBefore(node, |node.values| + 1 + n)
         == FreeReadsAll(node.values) + Without(FreeReads(node.built), {node.binding}) + DepartureReads(node.departures[..n])
  {
    hide FreeReads, FreeReadsAll, Children, RunsAt, BoundAt, Added;
    var m := |node.values|;
    BuiltAdds(node);
    if n == 0 {
      RowAddsBefore(node, m);
      OneMore(node, m);
    } else {
      DeparturesAdd(node, n - 1);
      assert node.departures[..n][..n - 1] == node.departures[..n - 1];
      DepartureAdds(node, n - 1);
      OneMore(node, m + n);
    }
  }

  lemma BuiltAdds(node: Node)
    requires node.Attempt?
    ensures |Children(node)| == |node.values| + 1 + |node.departures|
    ensures Added(node, |node.values|) == Without(FreeReads(node.built), {node.binding})
  {
    hide FreeReads;
    assert Children(node)[|node.values|] == node.built;
  }

  lemma DepartureAdds(node: Node, i: nat)
    requires node.Attempt? && i < |node.departures|
    ensures |Children(node)| == |node.values| + 1 + |node.departures|
    ensures Added(node, |node.values| + 1 + i) == FreeReads(node.departures[i].body)
  {
    hide FreeReads;
    assert Children(node)[|node.values| + 1 + i] == node.departures[i].body;
    AddedWhole(node, |node.values| + 1 + i);
  }

  lemma RowAddsBefore(node: Node, n: nat)
    requires node.Attempt? && n <= |node.values|
    ensures AddedBefore(node, n) == FreeReadsAll(node.values[..n])
    ensures n == |node.values| ==> AddedBefore(node, n) == FreeReadsAll(node.values)
  {
    hide FreeReads, FreeReadsAll, Added;
    assert Children(node)[..|node.values|] == node.values;
    RowAdds(node, node.values, n);
    assert node.values[..|node.values|] == node.values;
  }

  // ----- what is bound around a step -----

  /** Something read after what is read in a step is outside everything bound around it. */
  lemma {:induction false} AroundThen(around: seq<Around>, x: seq<Reach>, y: seq<Reach>)
    ensures AroundReads(around, x + y) == AroundReads(around, x) + Without(y, BoundAround(around))
    decreases |around|
  {
    if around == [] {
      assert BoundAround(around) == {};
      WithoutNone(y);
    } else {
      var first, rest := around[0], around[1..];
      AroundThen(rest, x, y);
      WithoutAppend(AroundReads(rest, x), Without(y, BoundAround(rest)), {first.binding});
      WithoutTwice(y, BoundAround(rest), {first.binding});
      BoundFirst(around);
    }
  }

  lemma BoundFirst(around: seq<Around>)
    requires around != []
    ensures BoundAround(around) == BoundAround(around[1..]) + {around[0].binding}
  {
    forall x | x in BoundAround(around) ensures x in BoundAround(around[1..]) + {around[0].binding} {
      var i :| 0 <= i < |around| && around[i].binding == x;
      if i > 0 { assert around[1..][i - 1].binding == x; }
    }
    forall x | x in BoundAround(around[1..]) ensures x in BoundAround(around) {
      var i :| 0 <= i < |around| - 1 && around[1..][i].binding == x;
      assert around[i + 1].binding == x;
    }
  }

  lemma BoundLast(around: seq<Around>)
    requires around != []
    ensures BoundAround(around) == BoundAround(around[..|around| - 1]) + {around[|around| - 1].binding}
  {
    var last := |around| - 1;
    forall x | x in BoundAround(around) ensures x in BoundAround(around[..last]) + {around[last].binding} {
      var i :| 0 <= i < |around| && around[i].binding == x;
      if i < last { assert around[..last][i].binding == x; }
    }
    forall x | x in BoundAround(around[..last]) ensures x in BoundAround(around) {
      var i :| 0 <= i < last && around[..last][i].binding == x;
      assert around[i].binding == x;
    }
  }

  /** The last of what is bound around a step, as the first thing the step reads. */
  lemma {:induction false} AroundLast(around: seq<Around>, step: seq<Reach>)
    requires around != []
    ensures var last := |around| - 1;
      AroundReads(around, step) == AroundReads(around[..last], FreeReads(around[last].value) + Without(step, {around[last].binding}))
    decreases |around|
  {
    var last := |around| - 1;
    if last == 0 {
      assert around[1..] == [] && around[..0] == [];
    } else {
      AroundLast(around[1..], step);
      assert around[1..][..last - 1] == around[..last][1..];
    }
  }

  lemma {:induction false} AroundAdds(node: Node, n: nat, step: seq<Reach>)
    requires node.Walk? && !NeverRuns(node.takes) && n <= |node.around|
    ensures AroundReads(node.around[..n], step) == AddedBefore(node, n) + Without(step, BoundAround(node.around[..n]))
  {
    hide FreeReads, Children, RunsAt, BoundAt, Added;
    var around := node.around[..n];
    if n == 0 {
      assert BoundAround(around) == {};
      WithoutNone(step);
    } else {
      var one, before := node.around[n - 1], node.around[..n - 1];
      assert around[..n - 1] == before && around[n - 1] == one;
      AroundLast(around, step);
      AroundThen(before, FreeReads(one.value), Without(step, {one.binding}));
      AroundAdds(node, n - 1, FreeReads(one.value));
      WithoutTwice(step, {one.binding}, BoundAround(before));
      BoundLast(around);
      assert {one.binding} + BoundAround(before) == BoundAround(around);
      AroundAdded(node, n - 1);
      OneMore(node, n - 1);
      hide AddedBefore, AroundReads, Without;
    }
  }

  lemma AroundAdded(node: Node, i: nat)
    requires node.Walk? && !NeverRuns(node.takes) && i < |node.around|
    ensures |Children(node)| == |node.around| + 3
    ensures Added(node, i) == Without(FreeReads(node.around[i].value), BoundAround(node.around[..i]))
  {
    hide FreeReads;
    assert Children(node)[i] == node.around[i].value;
  }

  lemma StepAdded(node: Node)
    requires node.Walk?
    ensures |Children(node)| == |node.around| + 3
    ensures Added(node, |node.around|) == if NeverRuns(node.takes) then []
      else Without(FreeReads(node.body), BoundAround(node.around) + {node.grown, node.each})
    ensures Added(node, |node.around| + 1) == FreeReads(node.walked)
    ensures Added(node, |node.around| + 2) == FreeReads(node.from)
  {
    hide FreeReads;
    var n := |node.around|;
    assert Children(node)[n] == node.body && Children(node)[n + 1] == node.walked && Children(node)[n + 2] == node.from;
    AddedWhole(node, n + 1);
    AddedWhole(node, n + 2);
  }

  lemma WalkReads(node: Node)
    requires node.Walk?
    ensures FreeReads(node) == if NeverRuns(node.takes) then FreeReads(node.walked) + FreeReads(node.from)
      else AroundReads(node.around, Without(FreeReads(node.body), {node.grown, node.each})) + FreeReads(node.walked) + FreeReads(node.from)
  {
  }

  lemma StepAdds(node: Node)
    requires node.Walk? && !NeverRuns(node.takes)
    ensures |Children(node)| == |node.around| + 3
    ensures AddedBefore(node, |node.around| + 1) == AroundReads(node.around, Without(FreeReads(node.body), {node.grown, node.each}))
  {
    StepAdded(node);
    hide FreeReads, Children, RunsAt, BoundAt, Added, AroundReads;
    var n := |node.around|;
    OneMore(node, n);
    AroundAdds(node, n, Without(FreeReads(node.body), {node.grown, node.each}));
    assert node.around[..n] == node.around;
    WithoutTwice(FreeReads(node.body), {node.grown, node.each}, BoundAround(node.around));
    assert BoundAround(node.around) + {node.grown, node.each} == {node.grown, node.each} + BoundAround(node.around);
  }

  lemma WalkAdds(node: Node)
    requires node.Walk?
    ensures FreeReads(node) == AddedBefore(node, |Children(node)|)
  {
    hide FreeReads, Children, RunsAt, BoundAt, Added, AroundReads, AddedBefore;
    WalkReads(node);
    var n := |node.around|;
    StepAdded(node);
    OneMore(node, n);
    OneMore(node, n + 1);
    OneMore(node, n + 2);
    if NeverRuns(node.takes) {
      NothingAdded(node, n + 1);
    } else {
      StepAdds(node);
    }
  }

  lemma {:induction false} NothingAdded(node: Node, n: nat)
    requires node.Walk? && NeverRuns(node.takes) && n <= |node.around| + 1
    ensures AddedBefore(node, n) == []
  {
    if n > 0 { NothingAdded(node, n - 1); }
  }

  // ----- the law -----

  lemma RowIsAll(node: Node, nodes: seq<Node>)
    requires (node.Construct? && nodes == node.values) || (node.TupleNode? && nodes == node.nodes) || (node.ListNode? && nodes == node.nodes)
    ensures AddedBefore(node, |nodes|) == FreeReadsAll(nodes)
  {
    RowAdds(node, nodes, |nodes|);
    assert nodes[..|nodes|] == nodes;
  }

  lemma {:induction false} ApplyAdds(node: Node, n: nat)
    requires node.Apply? && n <= |node.arguments|
    ensures AddedBefore(node, n + 1) == FreeReads(node.applied) + FreeReadsAll(node.arguments[..n])
  {
    hide FreeReads;
    if n == 0 {
      AddedWhole(node, 0);
      OneMore(node, 0);
      assert FreeReadsAll(node.arguments[..0]) == [];
    } else {
      ApplyAdds(node, n - 1);
      assert Children(node)[n] == node.arguments[n - 1];
      AddedWhole(node, n);
      OneMore(node, n);
      assert node.arguments[..n][..n - 1] == node.arguments[..n - 1];
    }
  }

  lemma ApplyIsAll(node: Node)
    requires node.Apply?
    ensures FreeReads(node) == AddedBefore(node, |Children(node)|)
  {
    ApplyAdds(node, |node.arguments|);
    assert node.arguments[..|node.arguments|] == node.arguments;
  }

  lemma OneAdds(node: Node)
    requires |Children(node)| == 1
    ensures AddedBefore(node, 1) == if RunsAt(node, 0) then Without(FreeReads(Children(node)[0]), BoundAt(node, 0)) else []
    ensures RunsAt(node, 0) && BoundAt(node, 0) == {} ==> AddedBefore(node, 1) == FreeReads(Children(node)[0])
  {
    hide FreeReads;
    OneMore(node, 0);
    WithoutNone(FreeReads(Children(node)[0]));
  }

  lemma LetAdds(node: Node)
    requires node.Let?
    ensures AddedBefore(node, 2) == FreeReads(node.value) + Without(FreeReads(node.body), {node.binding})
  {
    hide FreeReads;
    AddedWhole(node, 0);
    OneMore(node, 0);
    OneMore(node, 1);
  }

  lemma IfAdds(node: Node)
    requires node.If?
    ensures AddedBefore(node, 3) == FreeReads(node.cond) + FreeReads(node.yes) + FreeReads(node.no)
  {
    hide FreeReads;
    AddedWhole(node, 0);
    AddedWhole(node, 1);
    AddedWhole(node, 2);
    OneMore(node, 0);
    OneMore(node, 1);
    OneMore(node, 2);
  }

  lemma MatchReads(node: Node)
    requires node.Match?
    ensures FreeReads(node) == FreeReads(node.subject) + ArmReads(node.arms, node.subject.ty) && |Children(node)| == |node.arms| + 1
  {
  }

  lemma MatchAdds(node: Node)
    requires node.Match?
    ensures FreeReads(node) == AddedBefore(node, |Children(node)|)
  {
    hide FreeReads, ArmReads, AddedBefore, Children;
    MatchReads(node);
    ArmsAdd(node, |node.arms|);
    assert node.arms[..|node.arms|] == node.arms;
  }

  lemma AttemptReads(node: Node)
    requires node.Attempt?
    ensures FreeReads(node) == FreeReadsAll(node.values) + Without(FreeReads(node.built), {node.binding}) + DepartureReads(node.departures)
    ensures |Children(node)| == |node.values| + 1 + |node.departures|
  {
  }

  lemma AttemptAdds(node: Node)
    requires node.Attempt?
    ensures FreeReads(node) == AddedBefore(node, |Children(node)|)
  {
    hide FreeReads, FreeReadsAll, DepartureReads, AddedBefore, Children;
    AttemptReads(node);
    DeparturesAdd(node, |node.departures|);
    assert node.departures[..|node.departures|] == node.departures;
  }

  lemma CallAdds(node: Node)
    requires node.Call?
    ensures FreeReads(node) == AddedBefore(node, |Children(node)|)
  {
    ArgumentsAdd(node, |node.arguments|);
    assert node.arguments[..|node.arguments|] == node.arguments;
  }

  /** A read reads itself, and every other node what its running children read, from left to right, outside
      what it binds around each. */
  lemma FreeReadsByChildren(node: Node)
    ensures FreeReads(node) == if node.Read? then [Reach(node.binding, node.ty)] else AddedBefore(node, |Children(node)|)
  {
    match node
    case Construct(_, values, _) => RowIsAll(node, values);
    case TupleNode(nodes, _) => RowIsAll(node, nodes);
    case ListNode(nodes, _) => RowIsAll(node, nodes);
    case Attempt(_, _, _, _, _, _, _) => AttemptAdds(node);
    case Let(_, _, _, _, _) => LetAdds(node);
    case If(_, _, _, _) => IfAdds(node);
    case Match(_, _, _) => MatchAdds(node);
    case Call(_, _, _) => CallAdds(node);
    case Walk(_, _, _, _, _, _, _, _, _, _) => WalkAdds(node);
    case Apply(_, _, _) => ApplyIsAll(node);
    case FieldOf(_, _, _) => OneAdds(node);
    case PresentNode(_, _) => OneAdds(node);
    case Member(_, _, _) => OneAdds(node);
    case Block(_, _, _, _) => OneAdds(node);
    case Widen(_, _) => OneAdds(node);
    case _ =>
  }

  /** A child that runs reaches a capability. */
  predicate ChildReaches(node: Node, at: nat, required: seq<string>)
    requires at < |Children(node)|
  {
    RunsAt(node, at) && ReachesEnvironment(Children(node)[at], required)
  }

  /** Whether a capability is reached, by the same table: by the call itself or by a child that runs. */
  lemma ReachesByChildren(node: Node, required: seq<string>)
    ensures ReachesEnvironment(node, required) <==>
      || (node.Call? && node.reaches.Behavior? && node.reaches.declared in required)
      || exists i :: 0 <= i < |Children(node)| && ChildReaches(node, i, required)
  {
    if i :| 0 <= i < |Children(node)| && ChildReaches(node, i, required) {
      ChildReachesIt(node, i, required);
    }
    ReachesByOne(node, required);
  }

  lemma ChildReachesIt(node: Node, i: nat, required: seq<string>)
    requires i < |Children(node)| && ChildReaches(node, i, required)
    ensures ReachesEnvironment(node, required)
  {
    match node
    case Attempt(_, values, _, _, _, departures, _) =>
      if i < |values| { assert values[i] == Children(node)[i]; }
      if i > |values| { assert departures[i - |values| - 1].body == Children(node)[i]; }
    case Match(_, arms, _) => if i > 0 { assert arms[i - 1].body == Children(node)[i]; }
    case Walk(_, around, _, _, _, _, _, _, _, _) => if i < |around| { assert around[i].value == Children(node)[i]; }
    case Apply(_, arguments, _) => if i > 0 { assert arguments[i - 1] == Children(node)[i]; }
    case _ =>
  }

  lemma ReachesByOne(node: Node, required: seq<string>)
    ensures ReachesEnvironment(node, required) && !(node.Call? && node.reaches.Behavior? && node.reaches.declared in required) ==>
      exists i :: 0 <= i < |Children(node)| && ChildReaches(node, i, required)
  {
    if ReachesEnvironment(node, required) && !(node.Call? && node.reaches.Behavior? && node.reaches.declared in required) {
      var _ := ReachedAt(node, required);
    }
  }

  lemma ReachedInAttempt(node: Node, required: seq<string>) returns (i: nat)
    requires node.Attempt? && ReachesEnvironment(node, required)
    ensures i < |Children(node)| && ChildReaches(node, i, required)
  {
    if AnyReaches(node.values, required) {
      i :| i < |node.values| && ReachesEnvironment(node.values[i], required);
    } else if ReachesEnvironment(node.built, required) {
      i := |node.values|;
    } else {
      var j: nat :| j < |node.departures| && ReachesEnvironment(node.departures[j].body, required);
      i := |node.values| + 1 + j;
    }
  }

  lemma ReachedInWalk(node: Node, required: seq<string>) returns (i: nat)
    requires node.Walk? && ReachesEnvironment(node, required)
    ensures i < |Children(node)| && ChildReaches(node, i, required)
  {
    if ReachesEnvironment(node.walked, required) {
      i := |node.around| + 1;
    } else if ReachesEnvironment(node.from, required) {
      i := |node.around| + 2;
    } else if ReachesEnvironment(node.body, required) {
      i := |node.around|;
    } else {
      i :| i < |node.around| && ReachesEnvironment(node.around[i].value, required);
    }
  }

  lemma ReachedAt(node: Node, required: seq<string>) returns (i: nat)
    requires ReachesEnvironment(node, required) && !(node.Call? && node.reaches.Behavior? && node.reaches.declared in required)
    ensures i < |Children(node)| && ChildReaches(node, i, required)
  {
    i := 0;
    match node
    case Construct(_, values, _) => i :| i < |values| && ReachesEnvironment(values[i], required);
    case TupleNode(nodes, _) => i :| i < |nodes| && ReachesEnvironment(nodes[i], required);
    case ListNode(nodes, _) => i :| i < |nodes| && ReachesEnvironment(nodes[i], required);
    case Attempt(_, _, _, _, _, _, _) => i := ReachedInAttempt(node, required);
    case Let(_, _, value, _, _) => i := if ReachesEnvironment(value, required) then 0 else 1;
    case If(cond, yes, _, _) => i := if ReachesEnvironment(cond, required) then 0 else if ReachesEnvironment(yes, required) then 1 else 2;
    case Match(subject, arms, _) =>
      if !ReachesEnvironment(subject, required) {
        var j: nat :| j < |arms| && !NeverEntered(arms[j], subject.ty) && ReachesEnvironment(arms[j].body, required);
        i := j + 1;
      }
    case Call(reaches, arguments, _) =>
      i :| i < |arguments| && !NeverApplied(reaches, arguments[i]) && ReachesEnvironment(arguments[i], required);
    case Walk(_, _, _, _, _, _, _, _, _, _) => i := ReachedInWalk(node, required);
    case Apply(applied, arguments, _) =>
      if !ReachesEnvironment(applied, required) {
        var j: nat :| j < |arguments| && ReachesEnvironment(arguments[j], required);
        i := j + 1;
      }
    case _ =>
  }
}
