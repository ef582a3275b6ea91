/** Free reads of a node by recursion on the tree, with no set of what is in scope, and the captures of
    a block read off them: the specification the planner is proved against
    (native/crates/compiler/src/closures.rs). */
module Closures {
  import opened Transport

  /** One read: its number, with the type of the node that read it. */
  datatype Reach = Reach(binding: nat, ty: Ty)

  function Names(reaches: seq<Reach>): set<nat> {
    set i | 0 <= i < |reaches| :: reaches[i].binding
  }

  lemma NamesAppend(a: seq<Reach>, b: seq<Reach>)
    ensures Names(a + b) == Names(a) + Names(b)
  {
    forall x | x in Names(a) + Names(b) ensures x in Names(a + b) {
      if x in Names(a) {
        var i :| 0 <= i < |a| && a[i].binding == x;
        assert (a + b)[i].binding == x;
      } else {
        var i :| 0 <= i < |b| && b[i].binding == x;
        assert (a + b)[|a| + i].binding == x;
      }
    }
  }

  /** Those read of a binding outside `bound`, in order. */
  function Without(reaches: seq<Reach>, bound: set<nat>): seq<Reach> {
    if reaches == [] then []
    else
      var last := |reaches| - 1;
      var rest := Without(reaches[..last], bound);
      if reaches[last].binding in bound then rest else rest + [reaches[last]]
  }

  lemma {:induction false} NamesWithout(reaches: seq<Reach>, bound: set<nat>)
    ensures Names(Without(reaches, bound)) == Names(reaches) - bound
  {
    if reaches != [] {
      var last := |reaches| - 1;
      NamesWithout(reaches[..last], bound);
      assert reaches == reaches[..last] + [reaches[last]];
      NamesAppend(reaches[..last], [reaches[last]]);
      NamesAppend(Without(reaches[..last], bound), [reaches[last]]);
    }
  }

  // ----- the free reads of the code that runs -----

  /** The reads of `node` from left to right, less those of a number bound between it and the read. */
  function FreeReads(node: Node): seq<Reach>
    decreases node, 1
  {
    match node
    case Read(binding, ty) => [Reach(binding, ty)]
    case Literal(_, _) => []
    case UnitNode(_, _) => []
    case Unreachable(_) => []
    case AbsentNode(_) => []
    case Construct(_, values, _) => FreeReadsAll(values)
    case Attempt(_, values, binding, _, built, departures, _) =>
      FreeReadsAll(values) + Without(FreeReads(built), {binding}) + DepartureReads(departures)
    case FieldOf(target, _, _) => FreeReads(target)
    case Let(binding, _, value, body, _) => FreeReads(value) + Without(FreeReads(body), {binding})
    case If(cond, yes, no, _) => FreeReads(cond) + FreeReads(yes) + FreeReads(no)
    case Match(subject, arms, _) => FreeReads(subject) + ArmReads(arms, subject.ty)
    case PresentNode(value, _) => FreeReads(value)
    case TupleNode(nodes, _) => FreeReadsAll(nodes)
    case Member(tuple, _, _) => FreeReads(tuple)
    case ListNode(nodes, _) => FreeReadsAll(nodes)
    case Call(reaches, arguments, _) => ArgumentReads(reaches, arguments)
    case Walk(_, around, grown, each, body, takes, _, walked, from, _) =>
      if NeverRuns(takes) then FreeReads(walked) + FreeReads(from)
      else AroundReads(around, Without(FreeReads(body), {grown, each})) + FreeReads(walked) + FreeReads(from)
    case Block(_, parameters, body, ty) =>
      if ty.Fn? && NeverRuns(ty.takes) then [] else Without(FreeReads(body), NumbersIn(parameters))
    case Apply(applied, arguments, _) => FreeReads(applied) + FreeReadsAll(arguments)
    case Widen(value, _) => FreeReads(value)
  }

  function NumbersIn(parameters: seq<nat>): set<nat> {
    set x | x in parameters
  }

  function FreeReadsAll(nodes: seq<Node>): seq<Reach>
    decreases nodes, 0
  {
    if nodes == [] then []
    else FreeReadsAll(nodes[..|nodes| - 1]) + FreeReads(nodes[|nodes| - 1])
  }

  /** The reads of a call's arguments, with none from an argument `NeverApplied` picks out. */
  function ArgumentReads(reaches: Reaches, nodes: seq<Node>): seq<Reach>
    decreases nodes, 0
  {
    if nodes == [] then []
    else
      var last := |nodes| - 1;
      ArgumentReads(reaches, nodes[..last]) + (if NeverApplied(reaches, nodes[last]) then [] else FreeReads(nodes[last]))
  }

  function ArmName(binding: ArmBinding): set<nat> {
    if binding.NoName? then {} else {binding.number}
  }

  /** The reads of arms, with none from one `NeverEntered` picks out. */
  function ArmReads(arms: seq<Arm>, subject: Ty): seq<Reach>
    decreases arms, 0
  {
    if arms == [] then []
    else
      var last := arms[|arms| - 1];
      assert last.body < last;
      ArmReads(arms[..|arms| - 1], subject) +
      (if NeverEntered(last, subject) then [] else Without(FreeReads(last.body), ArmName(last.binding)))
  }

  function DepartureReads(departures: seq<Departure>): seq<Reach>
    decreases departures, 0
  {
    if departures == [] then []
    else
      var last := departures[|departures| - 1];
      assert last.body < last;
      DepartureReads(departures[..|departures| - 1]) + FreeReads(last.body)
  }

  /** What is bound around a step hides its own in what is bound after it and in the step. */
  function AroundReads(around: seq<Around>, step: seq<Reach>): seq<Reach>
    decreases around, 0
  {
    if around == [] then step
    else
      var first := around[0];
      assert first.value < first;
      FreeReads(first.value) + Without(AroundReads(around[1..], step), {first.binding})
  }

  // ----- the free variables of the code that runs, as sets -----

  /** The textbook free variables: each binder takes its own out of what it scopes over. */
  function Free(node: Node): set<nat>
    decreases node, 1
  {
    match node
    case Read(binding, _) => {binding}
    case Literal(_, _) => {}
    case UnitNode(_, _) => {}
    case Unreachable(_) => {}
    case AbsentNode(_) => {}
    case Construct(_, values, _) => FreeAll(values)
    case Attempt(_, values, binding, _, built, departures, _) =>
      FreeAll(values) + (Free(built) - {binding}) + FreeDepartures(departures)
    case FieldOf(target, _, _) => Free(target)
    case Let(binding, _, value, body, _) => Free(value) + (Free(body) - {binding})
    case If(cond, yes, no, _) => Free(cond) + Free(yes) + Free(no)
    case Match(subject, arms, _) => Free(subject) + FreeArms(arms, subject.ty)
    case PresentNode(value, _) => Free(value)
    case TupleNode(nodes, _) => FreeAll(nodes)
    case Member(tuple, _, _) => Free(tuple)
    case ListNode(nodes, _) => FreeAll(nodes)
    case Call(reaches, arguments, _) => FreeArguments(reaches, arguments)
    case Walk(_, around, grown, each, body, takes, _, walked, from, _) =>
      (if NeverRuns(takes) then {} else FreeAround(around, Free(body) - {grown, each})) + (Free(walked) + Free(from))
    case Block(_, parameters, body, ty) =>
      if ty.Fn? && NeverRuns(ty.takes) then {} else Free(body) - NumbersIn(parameters)
    case Apply(applied, arguments, _) => Free(applied) + FreeAll(arguments)
    case Widen(value, _) => Free(value)
  }

  function FreeAll(nodes: seq<Node>): set<nat>
    decreases nodes, 0
  {
    if nodes == [] then {} else Free(nodes[0]) + FreeAll(nodes[1..])
  }

  function FreeArguments(reaches: Reaches, nodes: seq<Node>): set<nat>
    decreases nodes, 0
  {
    if nodes == [] then {}
    else (if NeverApplied(reaches, nodes[0]) then {} else Free(nodes[0])) + FreeArguments(reaches, nodes[1..])
  }

  function FreeArms(arms: seq<Arm>, subject: Ty): set<nat>
    decreases arms, 0
  {
    if arms == [] then {}
    else
      var first := arms[0];
      assert first.body < first;
      (if NeverEntered(first, subject) then {} else Free(first.body) - ArmName(first.binding)) + FreeArms(arms[1..], subject)
  }

  function FreeDepartures(departures: seq<Departure>): set<nat>
    decreases departures, 0
  {
    if departures == [] then {}
    else
      var first := departures[0];
      assert first.body < first;
      Free(first.body) + FreeDepartures(departures[1..])
  }

  function FreeAround(around: seq<Around>, step: set<nat>): set<nat>
    decreases around, 0
  {
    if around == [] then step
    else
      var first := around[0];
      assert first.value < first;
      Free(first.value) + (FreeAround(around[1..], step) - {first.binding})
  }

  // ----- whether the code that runs calls a behavior it was handed a capability for -----

  predicate ReachesEnvironment(node: Node, required: seq<string>)
    decreases node, 1
  {
    match node
    case Read(_, _) => false
    case Literal(_, _) => false
    case UnitNode(_, _) => false
    case Unreachable(_) => false
    case AbsentNode(_) => false
    case Construct(_, values, _) => AnyReaches(values, required)
    case Attempt(_, values, _, _, built, departures, _) =>
      || AnyReaches(values, required) || ReachesEnvironment(built, required)
      || (exists i :: 0 <= i < |departures| && ReachesEnvironment(departures[i].body, required))
    case FieldOf(target, _, _) => ReachesEnvironment(target, required)
    case Let(_, _, value, body, _) => ReachesEnvironment(value, required) || ReachesEnvironment(body, required)
    case If(cond, yes, no, _) =>
      ReachesEnvironment(cond, required) || ReachesEnvironment(yes, required) || ReachesEnvironment(no, required)
    case Match(subject, arms, _) =>
      || ReachesEnvironment(subject, required)
      || (exists i :: 0 <= i < |arms| && !NeverEntered(arms[i], subject.ty) && ReachesEnvironment(arms[i].body, required))
    case PresentNode(value, _) => ReachesEnvironment(value, required)
    case TupleNode(nodes, _) => AnyReaches(nodes, required)
    case Member(tuple, _, _) => ReachesEnvironment(tuple, required)
    case ListNode(nodes, _) => AnyReaches(nodes, required)
    case Call(reaches, arguments, _) =>
      || (reaches.Behavior? && reaches.declared in required)
      || (exists i :: 0 <= i < |arguments| && !NeverApplied(reaches, arguments[i]) && ReachesEnvironment(arguments[i], required))
    case Walk(_, around, _, _, body, takes, _, walked, from, _) =>
      || ReachesEnvironment(walked, required) || ReachesEnvironment(from, required)
      || (!NeverRuns(takes) &&
          (ReachesEnvironment(body, required) ||
           exists i :: 0 <= i < |around| && ReachesEnvironment(around[i].value, required)))
    case Block(_, _, body, ty) => !(ty.Fn? && NeverRuns(ty.takes)) && ReachesEnvironment(body, required)
    case Apply(applied, arguments, _) => ReachesEnvironment(applied, required) || AnyReaches(arguments, required)
    case Widen(value, _) => ReachesEnvironment(value, required)
  }

  predicate AnyReaches(nodes: seq<Node>, required: seq<string>)
    decreases nodes, 0
  {
    exists i :: 0 <= i < |nodes| && ReachesEnvironment(nodes[i], required)
  }

  // ----- what is gathered, and the plan of a block -----

  /** `more` after `gathered`, each binding kept where it was first reached. */
  function Gather(gathered: seq<Reach>, more: seq<Reach>): seq<Reach>
    decreases |more|
  {
    if more == [] then gathered
    else
      var last := |more| - 1;
      var r := Gather(gathered, more[..last]);
      if more[last].binding in Names(r) then r else r + [more[last]]
  }

  /** Everything reached is gathered, once each. */
  lemma {:induction false} NamesGather(gathered: seq<Reach>, more: seq<Reach>)
    ensures Names(Gather(gathered, more)) == Names(gathered) + Names(more)
    ensures Distinct(gathered) ==> Distinct(Gather(gathered, more))
    decreases |more|
  {
    if more != [] {
      var last := |more| - 1;
      NamesGather(gathered, more[..last]);
      assert more == more[..last] + [more[last]];
      NamesAppend(more[..last], [more[last]]);
      NamesAppend(Gather(gathered, more[..last]), [more[last]]);
    }
  }

  predicate Distinct(reaches: seq<Reach>) {
    forall i, j :: 0 <= i < j < |reaches| ==> reaches[i].binding != reaches[j].binding
  }

  /** What a block is planned as: what its closure carries, whether it carries what the body holding
      it was handed, and whether a call can reach it at all. */
  datatype Site = Site(block: Node, captures: seq<Reach>, environment: bool, runs: bool)

  function PlanOf(block: Node, required: seq<string>): Site
    requires block.Block?
  {
    if block.ty.Fn? && NeverRuns(block.ty.takes) then Site(block, [], false, false)
    else
      Site(block, Gather([], Without(FreeReads(block.body), NumbersIn(block.parameters))),
           ReachesEnvironment(block.body, required), true)
  }

  /** A plan carries each free binding of the block once, and no other. */
  lemma PlanCarriesTheFree(block: Node, required: seq<string>)
    requires block.Block?
    ensures Names(PlanOf(block, required).captures) == Free(block)
    ensures Distinct(PlanOf(block, required).captures)
    ensures PlanOf(block, required).environment == ReachesEnvironment(block, required)
  {
    NamesGather([], Without(FreeReads(block.body), NumbersIn(block.parameters)));
    FreeReadsNameTheFree(block);
  }

  // ----- the free reads read the free variables -----

  /** What is read free, in the order it is reached, is what is free. */
  lemma {:induction false} FreeReadsNameTheFree(node: Node)
    ensures Names(FreeReads(node)) == Free(node)
    decreases node, 1
  {
    match node
    case Read(binding, ty) => assert FreeReads(node)[0].binding == binding;
    case Construct(_, values, _) => FreeReadsAllName(values);
    case Attempt(_, values, binding, _, built, departures, _) =>
      FreeReadsAllName(values);
      FreeReadsNameTheFree(built);
      DepartureReadsName(departures);
      NamesWithout(FreeReads(built), {binding});
      NamesAppend(FreeReadsAll(values), Without(FreeReads(built), {binding}));
      NamesAppend(FreeReadsAll(values) + Without(FreeReads(built), {binding}), DepartureReads(departures));
    case FieldOf(target, _, _) => FreeReadsNameTheFree(target);
    case Let(binding, _, value, body, _) =>
      FreeReadsNameTheFree(value);
      FreeReadsNameTheFree(body);
      NamesWithout(FreeReads(body), {binding});
      NamesAppend(FreeReads(value), Without(FreeReads(body), {binding}));
    case If(cond, yes, no, _) =>
      FreeReadsNameTheFree(cond);
      FreeReadsNameTheFree(yes);
      FreeReadsNameTheFree(no);
      NamesAppend(FreeReads(cond), FreeReads(yes));
      NamesAppend(FreeReads(cond) + FreeReads(yes), FreeReads(no));
    case Match(subject, arms, _) =>
      FreeReadsNameTheFree(subject);
      ArmReadsName(arms, subject.ty);
      NamesAppend(FreeReads(subject), ArmReads(arms, subject.ty));
    case PresentNode(value, _) => FreeReadsNameTheFree(value);
    case TupleNode(nodes, _) => FreeReadsAllName(nodes);
    case Member(tuple, _, _) => FreeReadsNameTheFree(tuple);
    case ListNode(nodes, _) => FreeReadsAllName(nodes);
    case Call(reaches, arguments, _) => ArgumentReadsName(reaches, arguments);
    case Walk(_, _, _, _, _, _, _, _, _, _) => WalkReadsName(node);
    case Block(_, parameters, body, _) =>
      FreeReadsNameTheFree(body);
      NamesWithout(FreeReads(body), NumbersIn(parameters));
    case Apply(applied, arguments, _) =>
      FreeReadsNameTheFree(applied);
      FreeReadsAllName(arguments);
      NamesAppend(FreeReads(applied), FreeReadsAll(arguments));
    case Widen(value, _) => FreeReadsNameTheFree(value);
    case _ =>
  }

  lemma {:induction false} WalkReadsName(node: Node)
    requires node.Walk?
    ensures Names(FreeReads(node)) == Free(node)
    decreases node, 0
  {
    FreeReadsNameTheFree(node.body);
    FreeReadsNameTheFree(node.walked);
    FreeReadsNameTheFree(node.from);
    var step := Without(FreeReads(node.body), {node.grown, node.each});
    NamesWithout(FreeReads(node.body), {node.grown, node.each});
    AroundReadsName(node.around, step);
    var around := AroundReads(node.around, step);
    NamesAppend(FreeReads(node.walked), FreeReads(node.from));
    NamesAppend(around, FreeReads(node.walked));
    NamesAppend(around + FreeReads(node.walked), FreeReads(node.from));
  }

  lemma {:induction false} AroundReadsName(around: seq<Around>, step: seq<Reach>)
    ensures Names(AroundReads(around, step)) == FreeAround(around, Names(step))
    decreases around, 0
  {
    if around != [] {
      var first := around[0];
      assert first.value < first;
      var rest := AroundReads(around[1..], step);
      FreeReadsNameTheFree(first.value);
      AroundReadsName(around[1..], step);
      NamesWithout(rest, {first.binding});
      NamesAppend(FreeReads(first.value), Without(rest, {first.binding}));
    }
  }

  lemma {:induction false} FreeReadsAllName(nodes: seq<Node>)
    ensures Names(FreeReadsAll(nodes)) == FreeAll(nodes)
    decreases nodes, 0
  {
    if nodes != [] {
      var last := |nodes| - 1;
      FreeReadsAllName(nodes[..last]);
      FreeReadsNameTheFree(nodes[last]);
      NamesAppend(FreeReadsAll(nodes[..last]), FreeReads(nodes[last]));
      FreeAllLast(nodes);
    }
  }

  lemma {:induction false} FreeAllLast(nodes: seq<Node>)
    requires nodes != []
    ensures FreeAll(nodes) == FreeAll(nodes[..|nodes| - 1]) + Free(nodes[|nodes| - 1])
  {
    if |nodes| > 1 {
      FreeAllLast(nodes[1..]);
      assert nodes[..|nodes| - 1][1..] == nodes[1..][..|nodes| - 2];
    }
  }

  lemma {:induction false} ArgumentReadsName(reaches: Reaches, nodes: seq<Node>)
    ensures Names(ArgumentReads(reaches, nodes)) == FreeArguments(reaches, nodes)
    decreases nodes, 0
  {
    if nodes != [] {
      var last := |nodes| - 1;
      ArgumentReadsName(reaches, nodes[..last]);
      FreeReadsNameTheFree(nodes[last]);
      NamesAppend(ArgumentReads(reaches, nodes[..last]), if NeverApplied(reaches, nodes[last]) then [] else FreeReads(nodes[last]));
      FreeArgumentsLast(reaches, nodes);
    }
  }

  lemma {:induction false} FreeArgumentsLast(reaches: Reaches, nodes: seq<Node>)
    requires nodes != []
    ensures var last := nodes[|nodes| - 1];
            FreeArguments(reaches, nodes) ==
            FreeArguments(reaches, nodes[..|nodes| - 1]) + (if NeverApplied(reaches, last) then {} else Free(last))
  {
    if |nodes| > 1 {
      FreeArgumentsLast(reaches, nodes[1..]);
      assert nodes[..|nodes| - 1][1..] == nodes[1..][..|nodes| - 2];
    }
  }

  lemma {:induction false} ArmReadsName(arms: seq<Arm>, subject: Ty)
    ensures Names(ArmReads(arms, subject)) == FreeArms(arms, subject)
    decreases arms, 0
  {
    if arms != [] {
      var last := arms[|arms| - 1];
      assert last.body < last;
      ArmReadsName(arms[..|arms| - 1], subject);
      FreeReadsNameTheFree(last.body);
      NamesWithout(FreeReads(last.body), ArmName(last.binding));
      NamesAppend(ArmReads(arms[..|arms| - 1], subject),
                  if NeverEntered(last, subject) then [] else Without(FreeReads(last.body), ArmName(last.binding)));
      FreeArmsLast(arms, subject);
    }
  }

  lemma {:induction false} FreeArmsLast(arms: seq<Arm>, subject: Ty)
    requires arms != []
    ensures var last := arms[|arms| - 1];
            FreeArms(arms, subject) == FreeArms(arms[..|arms| - 1], subject)
            + (if NeverEntered(last, subject) then {} else Free(last.body) - ArmName(last.binding))
  {
    if |arms| > 1 {
      FreeArmsLast(arms[1..], subject);
      assert arms[..|arms| - 1][1..] == arms[1..][..|arms| - 2];
    }
  }

  lemma {:induction false} DepartureReadsName(departures: seq<Departure>)
    ensures Names(DepartureReads(departures)) == FreeDepartures(departures)
    decreases departures, 0
  {
    if departures != [] {
      var last := departures[|departures| - 1];
      assert last.body < last;
      DepartureReadsName(departures[..|departures| - 1]);
      FreeReadsNameTheFree(last.body);
      NamesAppend(DepartureReads(departures[..|departures| - 1]), FreeReads(last.body));
      FreeDeparturesLast(departures);
    }
  }

  lemma {:induction false} FreeDeparturesLast(departures: seq<Departure>)
    requires departures != []
    ensures FreeDepartures(departures) == FreeDepartures(departures[..|departures| - 1]) + Free(departures[|departures| - 1].body)
  {
    if |departures| > 1 {
      FreeDeparturesLast(departures[1..]);
      assert departures[..|departures| - 1][1..] == departures[1..][..|departures| - 2];
    }
  }

  // ----- gathering -----

  lemma {:induction false} WithoutAppend(a: seq<Reach>, b: seq<Reach>, bound: set<nat>)
    ensures Without(a + b, bound) == Without(a, bound) + Without(b, bound)
    decreases |b|
  {
    if b == [] {
      assert a + b == a;
    } else {
      var last := |b| - 1;
      assert (a + b)[..|a + b| - 1] == a + b[..last];
      WithoutAppend(a, b[..last], bound);
    }
  }

  lemma {:induction false} WithoutTwice(reaches: seq<Reach>, a: set<nat>, b: set<nat>)
    ensures Without(Without(reaches, a), b) == Without(reaches, a + b)
    decreases |reaches|
  {
    if reaches != [] {
      var last := |reaches| - 1;
      WithoutTwice(reaches[..last], a, b);
      var rest := Without(reaches[..last], a);
      if reaches[last].binding !in a { assert (rest + [reaches[last]])[..|rest|] == rest; }
    }
  }

  lemma {:induction false} GatherAppend(gathered: seq<Reach>, a: seq<Reach>, b: seq<Reach>)
    ensures Gather(gathered, a + b) == Gather(Gather(gathered, a), b)
    decreases |b|
  {
    if b == [] {
      assert a + b == a;
    } else {
      assert (a + b)[..|a + b| - 1] == a + b[..|b| - 1];
      GatherAppend(gathered, a, b[..|b| - 1]);
    }
  }

  /** Gathering what a nested site gathered is gathering what it reached: the first reach of a
      binding is the same one, and a later one adds nothing. */
  lemma {:induction false} GatherGathered(gathered: seq<Reach>, reaches: seq<Reach>, bound: set<nat>)
    ensures Gather(gathered, Without(Gather([], reaches), bound)) == Gather(gathered, Without(reaches, bound))
    decreases |reaches|
  {
    if reaches != [] {
      var last := |reaches| - 1;
      var before, it := reaches[..last], reaches[last];
      GatherGathered(gathered, before, bound);
      assert reaches == before + [it];
      GatherOneMore(gathered, before, it, bound);
      var r := Gather([], before);
      if it.binding in Names(r) {
        GatherNothingMore(gathered, before, it, bound);
      } else {
        GatherOneMore(gathered, r, it, bound);
      }
    }
  }

  lemma GatherOneMore(gathered: seq<Reach>, before: seq<Reach>, it: Reach, bound: set<nat>)
    ensures Gather(gathered, Without(before + [it], bound)) == Gather(Gather(gathered, Without(before, bound)), Without([it], bound))
  {
    WithoutAppend(before, [it], bound);
    GatherAppend(gathered, Without(before, bound), Without([it], bound));
  }

  /** A reach of what was reached before adds nothing. */
  lemma GatherNothingMore(gathered: seq<Reach>, before: seq<Reach>, it: Reach, bound: set<nat>)
    requires it.binding in Names(Gather([], before))
    ensures Gather(Gather(gathered, Without(before, bound)), Without([it], bound)) == Gather(gathered, Without(before, bound))
  {
    NamesGather([], before);
    NamesWithout(before, bound);
    NamesGather(gathered, Without(before, bound));
    SingleWithout(it, bound);
    SingleGather(Gather(gathered, Without(before, bound)), it);
  }

  lemma SingleWithout(it: Reach, bound: set<nat>)
    ensures Without([it], bound) == if it.binding in bound then [] else [it]
  {
    assert [it][..0] == [];
    assert Without([], bound) == [];
  }

  lemma SingleGather(gathered: seq<Reach>, it: Reach)
    ensures Gather(gathered, [it]) == if it.binding in Names(gathered) then gathered else gathered + [it]
  {
    assert [it][..0] == [];
    assert Gather(gathered, []) == gathered;
  }
}
