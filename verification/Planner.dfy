/** The planner as it runs (native/crates/compiler/src/closures.rs): one scope set entered and left in
    place, one accumulator, and the sites pushed as they are found, against the free reads of the code
    that runs. */
module Planner {
  import opened Transport
  import opened Closures

  /** Every block of `node`, run or not, is typed as a function: the one thing the walk refuses for. */
  predicate BlocksAreFunctions(node: Node)
    decreases node, 1
  {
    match node
    case Read(_, _) => true
    case Literal(_, _) => true
    case UnitNode(_, _) => true
    case Unreachable(_) => true
    case AbsentNode(_) => true
    case Construct(_, values, _) => AllBlocksAre(values)
    case Attempt(_, values, _, _, built, departures, _) =>
      && AllBlocksAre(values) && BlocksAreFunctions(built)
      && forall i :: 0 <= i < |departures| ==> BlocksAreFunctions(departures[i].body)
    case FieldOf(target, _, _) => BlocksAreFunctions(target)
    case Let(_, _, value, body, _) => BlocksAreFunctions(value) && BlocksAreFunctions(body)
    case If(cond, yes, no, _) => BlocksAreFunctions(cond) && BlocksAreFunctions(yes) && BlocksAreFunctions(no)
    case Match(subject, arms, _) =>
      BlocksAreFunctions(subject) && forall i :: 0 <= i < |arms| ==> BlocksAreFunctions(arms[i].body)
    case PresentNode(value, _) => BlocksAreFunctions(value)
    case TupleNode(nodes, _) => AllBlocksAre(nodes)
    case Member(tuple, _, _) => BlocksAreFunctions(tuple)
    case ListNode(nodes, _) => AllBlocksAre(nodes)
    case Call(_, arguments, _) => AllBlocksAre(arguments)
    case Walk(_, around, _, _, body, _, _, walked, from, _) =>
      && (forall i :: 0 <= i < |around| ==> BlocksAreFunctions(around[i].value))
      && BlocksAreFunctions(body) && BlocksAreFunctions(walked) && BlocksAreFunctions(from)
    case Block(_, _, body, ty) => ty.Fn? && BlocksAreFunctions(body)
    case Apply(applied, arguments, _) => BlocksAreFunctions(applied) && AllBlocksAre(arguments)
    case Widen(value, _) => BlocksAreFunctions(value)
  }

  predicate AllBlocksAre(nodes: seq<Node>)
    decreases nodes, 0
  {
    forall i :: 0 <= i < |nodes| ==> BlocksAreFunctions(nodes[i])
  }

  // ----- the sites of the code that runs, each after those inside it -----

  function SitesOf(node: Node, required: seq<string>): seq<Site>
    decreases node, 1
  {
    match node
    case Read(_, _) => []
    case Literal(_, _) => []
    case UnitNode(_, _) => []
    case Unreachable(_) => []
    case AbsentNode(_) => []
    case Construct(_, values, _) => SitesOfAll(values, required)
    case Attempt(_, values, _, _, built, departures, _) =>
      SitesOfAll(values, required) + SitesOf(built, required) + DepartureSites(departures, required)
    case FieldOf(target, _, _) => SitesOf(target, required)
    case Let(_, _, value, body, _) => SitesOf(value, required) + SitesOf(body, required)
    case If(cond, yes, no, _) => SitesOf(cond, required) + SitesOf(yes, required) + SitesOf(no, required)
    case Match(subject, arms, _) => SitesOf(subject, required) + ArmSites(arms, subject.ty, required)
    case PresentNode(value, _) => SitesOf(value, required)
    case TupleNode(nodes, _) => SitesOfAll(nodes, required)
    case Member(tuple, _, _) => SitesOf(tuple, required)
    case ListNode(nodes, _) => SitesOfAll(nodes, required)
    case Call(reaches, arguments, _) => ArgumentSites(reaches, arguments, required)
    case Walk(_, around, _, _, body, takes, _, walked, from, _) =>
      (if NeverRuns(takes) then [] else AroundSites(around, required) + SitesOf(body, required))
      + SitesOf(walked, required) + SitesOf(from, required)
    case Block(_, _, body, ty) =>
      (if ty.Fn? && NeverRuns(ty.takes) then [] else SitesOf(body, required)) + [PlanOf(node, required)]
    case Apply(applied, arguments, _) => SitesOf(applied, required) + SitesOfAll(arguments, required)
    case Widen(value, _) => SitesOf(value, required)
  }

  function SitesOfAll(nodes: seq<Node>, required: seq<string>): seq<Site>
    decreases nodes, 0
  {
    if nodes == [] then []
    else SitesOfAll(nodes[..|nodes| - 1], required) + SitesOf(nodes[|nodes| - 1], required)
  }

  function ArgumentSites(reaches: Reaches, nodes: seq<Node>, required: seq<string>): seq<Site>
    decreases nodes, 0
  {
    if nodes == [] then []
    else
      var last := |nodes| - 1;
      ArgumentSites(reaches, nodes[..last], required) +
      (if NeverApplied(reaches, nodes[last]) then [] else SitesOf(nodes[last], required))
  }

  function ArmSites(arms: seq<Arm>, subject: Ty, required: seq<string>): seq<Site>
    decreases arms, 0
  {
    if arms == [] then []
    else
      var last := arms[|arms| - 1];
      assert last.body < last;
      ArmSites(arms[..|arms| - 1], subject, required) +
      (if NeverEntered(last, subject) then [] else SitesOf(last.body, required))
  }

  function DepartureSites(departures: seq<Departure>, required: seq<string>): seq<Site>
    decreases departures, 0
  {
    if departures == [] then []
    else
      var last := departures[|departures| - 1];
      assert last.body < last;
      DepartureSites(departures[..|departures| - 1], required) + SitesOf(last.body, required)
  }

  function AroundSites(around: seq<Around>, required: seq<string>): seq<Site>
    decreases around, 0
  {
    if around == [] then []
    else
      var first := around[0];
      assert first.value < first;
      SitesOf(first.value, required) + AroundSites(around[1..], required)
  }

  // ----- the walk -----

  class Bound {
    var names: set<nat>

    constructor (names: set<nat>)
      ensures this.names == names
    {
      this.names := names;
    }
  }

  class Reached {
    var bindings: seq<Reach>
    var seen: set<nat>
    var environment: bool

    ghost predicate Valid()
      reads this
    {
      seen == Names(bindings) && Distinct(bindings)
    }

    constructor ()
      ensures Valid() && bindings == [] && !environment
    {
      bindings, seen, environment := [], {}, false;
    }

    /** Appends `it` to `reads` unless its number is in `bound` or among the reads so far. */
    method Binding(bound: Bound, it: Reach)
      requires Valid()
      modifies this
      ensures Valid() && environment == old(environment)
      ensures bindings == Gather(old(bindings), Without([it], bound.names))
    {
      OneReached(bindings, it, bound.names);
      if it.binding !in bound.names && it.binding !in seen {
        seen := seen + {it.binding};
        bindings := bindings + [it];
      }
    }

    /** What a nested site reached, read as reached here. */
    method Bindings(bound: Bound, reached: seq<Reach>)
      requires Valid()
      modifies this
      ensures Valid() && environment == old(environment)
      ensures bindings == Gather(old(bindings), Without(reached, bound.names))
    {
      for i := 0 to |reached|
        invariant Valid() && environment == old(environment)
        invariant bindings == Gather(old(bindings), Without(reached[..i], bound.names))
      {
        GatherOneMore(old(bindings), reached[..i], reached[i], bound.names);
        Binding(bound, reached[i]);
        assert reached[..i + 1] == reached[..i] + [reached[i]];
      }
      assert reached[..|reached|] == reached;
    }
  }

  /** One read: nothing where it is bound inside or already reached, and otherwise itself, last. */
  lemma OneReached(gathered: seq<Reach>, it: Reach, bound: set<nat>)
    requires Distinct(gathered)
    ensures var r := Gather(gathered, Without([it], bound));
      && Distinct(r)
      && (it.binding in bound || it.binding in Names(gathered) ==> r == gathered)
      && (it.binding !in bound && it.binding !in Names(gathered) ==>
            r == gathered + [it] && Names(r) == Names(gathered) + {it.binding})
  {
    NamesGather(gathered, Without([it], bound));
    SingleWithout(it, bound);
    SingleGather(gathered, it);
    NamesAppend(gathered, [it]);
  }

  // ----- what a walk leaves, as values -----

  /** What the planner holds: the names in force, what was reached, and the sites found. */
  datatype State = State(bound: set<nat>, bindings: seq<Reach>, environment: bool, sites: seq<Site>)

  /** After reaching `free`, reaching the environment where `reaches`, and finding `found`: the names in
      force as they were, each free binding once at its first reach, and the sites after the others. */
  function After(s: State, lowered: bool, free: seq<Reach>, reaches: bool, found: seq<Site>): State {
    State(s.bound, Gather(s.bindings, Without(free, s.bound)), s.environment || reaches,
          s.sites + if lowered then found else [])
  }

  function AfterNode(s: State, lowered: bool, node: Node, required: seq<string>): State {
    After(s, lowered, FreeReads(node), ReachesEnvironment(node, required), SitesOf(node, required))
  }

  function AfterAll(s: State, lowered: bool, nodes: seq<Node>, required: seq<string>): State {
    After(s, lowered, FreeReadsAll(nodes), AnyReaches(nodes, required), SitesOfAll(nodes, required))
  }

  function AfterArms(s: State, lowered: bool, arms: seq<Arm>, subject: Ty, required: seq<string>): State {
    After(s, lowered, ArmReads(arms, subject), AnyArmReaches(arms, subject, required), ArmSites(arms, subject, required))
  }

  function AfterDepartures(s: State, lowered: bool, departures: seq<Departure>, required: seq<string>): State {
    After(s, lowered, DepartureReads(departures), AnyDepartureReaches(departures, required), DepartureSites(departures, required))
  }

  function AfterArguments(s: State, lowered: bool, reaches: Reaches, nodes: seq<Node>, required: seq<string>): State {
    After(s, lowered, ArgumentReads(reaches, nodes), AnyArgumentReaches(reaches, nodes, required),
          ArgumentSites(reaches, nodes, required))
  }

  function AfterArgument(s: State, lowered: bool, reaches: Reaches, node: Node, required: seq<string>): State {
    if NeverApplied(reaches, node) then s else AfterNode(s, lowered, node, required)
  }

  function AfterArm(s: State, lowered: bool, arm: Arm, subject: Ty, required: seq<string>): State {
    if NeverEntered(arm, subject) then s
    else
      After(s, lowered, Without(FreeReads(arm.body), ArmName(arm.binding)), ReachesEnvironment(arm.body, required),
            SitesOf(arm.body, required))
  }

  /** A walk's step, from what is bound around it at `at` on. */
  function AfterStep(s: State, lowered: bool, node: Node, at: nat, required: seq<string>): State
    requires node.Walk? && at <= |node.around|
  {
    After(s, lowered, AroundReads(node.around[at..], Without(FreeReads(node.body), {node.grown, node.each})),
          ReachesFrom(node, at, required), AroundSites(node.around[at..], required) + SitesOf(node.body, required))
  }

  /** One walk after another. */
  lemma AfterThen(s: State, lowered: bool, a: seq<Reach>, p: bool, f: seq<Site>, b: seq<Reach>, q: bool, g: seq<Site>)
    ensures After(After(s, lowered, a, p, f), lowered, b, q, g) == After(s, lowered, a + b, p || q, f + g)
  {
    WithoutAppend(a, b, s.bound);
    GatherAppend(s.bindings, Without(a, s.bound), Without(b, s.bound));
    if lowered { assert s.sites + f + g == s.sites + (f + g); }
  }

  /** A walk under names entered in place and left again is a walk of what they do not hide. */
  lemma AfterUnder(s: State, lowered: bool, names: set<nat>, free: seq<Reach>, p: bool, f: seq<Site>)
    ensures After(s.(bound := s.bound + names), lowered, free, p, f).(bound := s.bound)
         == After(s, lowered, Without(free, names), p, f)
  {
    WithoutTwice(free, names, s.bound);
    assert names + s.bound == s.bound + names;
  }

  lemma AfterAllNext(s: State, lowered: bool, nodes: seq<Node>, i: nat, required: seq<string>)
    requires i < |nodes|
    ensures AfterNode(AfterAll(s, lowered, nodes[..i], required), lowered, nodes[i], required)
         == AfterAll(s, lowered, nodes[..i + 1], required)
  {
    assert nodes[..i + 1][..i] == nodes[..i];
    AnyReachesNext(nodes, i, required);
    AfterThen(s, lowered, FreeReadsAll(nodes[..i]), AnyReaches(nodes[..i], required), SitesOfAll(nodes[..i], required),
              FreeReads(nodes[i]), ReachesEnvironment(nodes[i], required), SitesOf(nodes[i], required));
  }

  lemma AfterArgumentsNext(s: State, lowered: bool, reaches: Reaches, nodes: seq<Node>, i: nat, required: seq<string>)
    requires i < |nodes|
    ensures AfterArgument(AfterArguments(s, lowered, reaches, nodes[..i], required), lowered, reaches, nodes[i], required)
         == AfterArguments(s, lowered, reaches, nodes[..i + 1], required)
  {
    assert nodes[..i + 1][..i] == nodes[..i];
    AnyArgumentReachesNext(reaches, nodes, i, required);
    if !NeverApplied(reaches, nodes[i]) {
      AfterThen(s, lowered, ArgumentReads(reaches, nodes[..i]), AnyArgumentReaches(reaches, nodes[..i], required),
                ArgumentSites(reaches, nodes[..i], required),
                FreeReads(nodes[i]), ReachesEnvironment(nodes[i], required), SitesOf(nodes[i], required));
    } else {
      assert ArgumentReads(reaches, nodes[..i]) + [] == ArgumentReads(reaches, nodes[..i]);
      assert ArgumentSites(reaches, nodes[..i], required) + [] == ArgumentSites(reaches, nodes[..i], required);
    }
  }

  lemma AfterArmsNext(s: State, lowered: bool, arms: seq<Arm>, subject: Ty, i: nat, required: seq<string>)
    requires i < |arms|
    ensures AfterArm(AfterArms(s, lowered, arms[..i], subject, required), lowered, arms[i], subject, required)
         == AfterArms(s, lowered, arms[..i + 1], subject, required)
  {
    assert arms[..i + 1][..i] == arms[..i];
    AnyArmReachesNext(arms, i, subject, required);
    if !NeverEntered(arms[i], subject) {
      AfterThen(s, lowered, ArmReads(arms[..i], subject), AnyArmReaches(arms[..i], subject, required),
                ArmSites(arms[..i], subject, required), Without(FreeReads(arms[i].body), ArmName(arms[i].binding)),
                ReachesEnvironment(arms[i].body, required), SitesOf(arms[i].body, required));
    } else {
      assert ArmReads(arms[..i], subject) + [] == ArmReads(arms[..i], subject);
      assert ArmSites(arms[..i], subject, required) + [] == ArmSites(arms[..i], subject, required);
    }
  }

  lemma AfterDeparturesNext(s: State, lowered: bool, departures: seq<Departure>, i: nat, required: seq<string>)
    requires i < |departures|
    ensures AfterNode(AfterDepartures(s, lowered, departures[..i], required), lowered, departures[i].body, required)
         == AfterDepartures(s, lowered, departures[..i + 1], required)
  {
    assert departures[..i + 1][..i] == departures[..i];
    AnyDepartureReachesNext(departures, i, required);
    var body := departures[i].body;
    AfterThen(s, lowered, DepartureReads(departures[..i]), AnyDepartureReaches(departures[..i], required),
              DepartureSites(departures[..i], required), FreeReads(body), ReachesEnvironment(body, required), SitesOf(body, required));
  }

  /** What is bound around a step at `at`, and then the rest of the step under it. */
  lemma AfterStepNext(s: State, lowered: bool, node: Node, at: nat, required: seq<string>)
    requires node.Walk? && at < |node.around|
    ensures var first := node.around[at];
            var inner := AfterNode(s, lowered, first.value, required);
            AfterStep(inner.(bound := s.bound + {first.binding}), lowered, node, at + 1, required).(bound := s.bound)
            == AfterStep(s, lowered, node, at, required)
  {
    var first := node.around[at];
    assert node.around[at..][0] == first && node.around[at..][1..] == node.around[at + 1..];
    var step := Without(FreeReads(node.body), {node.grown, node.each});
    var rest := AroundReads(node.around[at + 1..], step);
    var found := AroundSites(node.around[at + 1..], required) + SitesOf(node.body, required);
    var inner := AfterNode(s, lowered, first.value, required);
    AfterUnder(inner, lowered, {first.binding}, rest, ReachesFrom(node, at + 1, required), found);
    AfterThen(s, lowered, FreeReads(first.value), ReachesEnvironment(first.value, required), SitesOf(first.value, required),
              Without(rest, {first.binding}), ReachesFrom(node, at + 1, required), found);
    assert SitesOf(first.value, required) + found == AroundSites(node.around[at..], required) + SitesOf(node.body, required);
    ReachesFromNext(node, at, required);
  }

  lemma ReachesFromNext(node: Node, at: nat, required: seq<string>)
    requires node.Walk? && at < |node.around|
    ensures ReachesFrom(node, at, required) <==>
      ReachesEnvironment(node.around[at].value, required) || ReachesFrom(node, at + 1, required)
  {
  }

  class Planning {
    var sites: seq<Site>
    /** As `Frame.required`: calls to these go through the environment. */
    const required: seq<string>

    constructor (required: seq<string>)
      ensures sites == [] && this.required == required
    {
      sites := [];
      this.required := required;
    }

    ghost function Now(bound: Bound, acc: Reached): State
      reads this, bound, acc
    {
      State(bound.names, acc.bindings, acc.environment, sites)
    }

    /** What `node` reaches outside `bound`, with every block under it planned along the way. */
    method Free(node: Node, bound: Bound, lowered: bool) returns (ok: bool, reached: Reached)
      modifies this, bound
      ensures fresh(reached) && reached.Valid()
      ensures ok == BlocksAreFunctions(node)
      ensures ok ==> Now(bound, reached) == AfterNode(State(old(bound.names), [], false, old(sites)), lowered, node, required)
      decreases node, 4
    {
      reached := new Reached();
      ok := Walk(node, bound, reached, lowered);
    }

    /** Code that is written and never run: nothing in it is planned, and nothing reached by it. */
    method Unrun(node: Node) returns (ok: bool)
      modifies this
      ensures ok == BlocksAreFunctions(node) && (ok ==> sites == old(sites))
      decreases node, 5
    {
      var bound := new Bound({});
      var reached;
      ok, reached := Free(node, bound, false);
    }

    /** The walk computes the textbook answer: it leaves the names in force as they were, adds exactly
        the free bindings of the code that runs, and says whether that code reaches a capability. */
    method Walk(node: Node, bound: Bound, acc: Reached, lowered: bool) returns (ok: bool)
      requires acc.Valid()
      modifies this, bound, acc
      ensures ok == BlocksAreFunctions(node) && acc.Valid()
      ensures ok ==> Now(bound, acc) == AfterNode(old(Now(bound, acc)), lowered, node, required)
      decreases node, 3
    {
      match node
      case Read(_, _) => ok := WalkLeaf(node, bound, acc, lowered);
      case Literal(_, _) => ok := WalkLeaf(node, bound, acc, lowered);
      case UnitNode(_, _) => ok := WalkLeaf(node, bound, acc, lowered);
      case Unreachable(_) => ok := WalkLeaf(node, bound, acc, lowered);
      case AbsentNode(_) => ok := WalkLeaf(node, bound, acc, lowered);
      case Construct(_, _, _) => ok := WalkSeveral(node, bound, acc, lowered);
      case Attempt(_, _, _, _, _, _, _) => ok := WalkAttempt(node, bound, acc, lowered);
      case FieldOf(_, _, _) => ok := WalkOne(node, bound, acc, lowered);
      case Let(_, _, _, _, _) => ok := WalkLet(node, bound, acc, lowered);
      case If(_, _, _, _) => ok := WalkSeveral(node, bound, acc, lowered);
      case Match(_, _, _) => ok := WalkMatch(node, bound, acc, lowered);
      case PresentNode(_, _) => ok := WalkOne(node, bound, acc, lowered);
      case TupleNode(_, _) => ok := WalkSeveral(node, bound, acc, lowered);
      case Member(_, _, _) => ok := WalkOne(node, bound, acc, lowered);
      case ListNode(_, _) => ok := WalkSeveral(node, bound, acc, lowered);
      case Call(_, _, _) => ok := WalkCall(node, bound, acc, lowered);
      case Walk(_, _, _, _, _, _, _, _, _, _) => ok := WalkStep(node, bound, acc, lowered);
      case Block(_, _, _, _) => ok := WalkBlock(node, bound, acc, lowered);
      case Apply(_, _, _) => ok := WalkApply(node, bound, acc, lowered);
      case Widen(_, _) => ok := WalkOne(node, bound, acc, lowered);
    }

    /** A node with nothing under it. */
    method WalkLeaf(node: Node, bound: Bound, acc: Reached, lowered: bool) returns (ok: bool)
      requires acc.Valid() && (node.Read? || node.Literal? || node.UnitNode? || node.Unreachable? || node.AbsentNode?)
      modifies this, bound, acc
      ensures ok == BlocksAreFunctions(node) && acc.Valid()
      ensures ok ==> Now(bound, acc) == AfterNode(old(Now(bound, acc)), lowered, node, required)
    {
      ok := true;
      ghost var was := Now(bound, acc);
      if node.Read? {
        acc.Binding(bound, Reach(node.binding, node.ty));
        assert FreeReads(node) == [Reach(node.binding, node.ty)] && SitesOf(node, required) == [];
      } else {
        AfterNone(was, lowered);
        assert Now(bound, acc) == was;
        assert FreeReads(node) == [] && SitesOf(node, required) == [];
      }
    }

    /** A node made of one other. */
    method WalkOne(node: Node, bound: Bound, acc: Reached, lowered: bool) returns (ok: bool)
      requires acc.Valid() && (node.FieldOf? || node.PresentNode? || node.Member? || node.Widen?)
      modifies this, bound, acc
      ensures ok == BlocksAreFunctions(node) && acc.Valid()
      ensures ok ==> Now(bound, acc) == AfterNode(old(Now(bound, acc)), lowered, node, required)
      decreases node, 2
    {
      var child := match node case FieldOf(target, _, _) => target case Member(tuple, _, _) => tuple
                              case PresentNode(value, _) => value case Widen(value, _) => value;
      ok := Walk(child, bound, acc, lowered);
    }

    /** A node made of several others, one after another. */
    method WalkSeveral(node: Node, bound: Bound, acc: Reached, lowered: bool) returns (ok: bool)
      requires acc.Valid() && (node.Construct? || node.If? || node.TupleNode? || node.ListNode?)
      modifies this, bound, acc
      ensures ok == BlocksAreFunctions(node) && acc.Valid()
      ensures ok ==> Now(bound, acc) == AfterNode(old(Now(bound, acc)), lowered, node, required)
      decreases node, 2
    {
      match node
      case Construct(_, values, _) => ok := WalkAll(node, values, bound, acc, lowered);
      case TupleNode(nodes, _) => ok := WalkAll(node, nodes, bound, acc, lowered);
      case ListNode(nodes, _) => ok := WalkAll(node, nodes, bound, acc, lowered);
      case If(cond, yes, no, _) =>
        SeveralOf([cond, yes, no], required);
        ok := WalkAll(node, [cond, yes, no], bound, acc, lowered);
        assert AllBlocksAre([cond, yes, no]) <==> BlocksAreFunctions([cond, yes, no][0]) && BlocksAreFunctions([cond, yes, no][1]) && BlocksAreFunctions([cond, yes, no][2]);
    }

    method WalkAll(parent: Node, nodes: seq<Node>, bound: Bound, acc: Reached, lowered: bool) returns (ok: bool)
      requires acc.Valid() && forall i :: 0 <= i < |nodes| ==> nodes[i] < parent
      modifies this, bound, acc
      ensures ok == AllBlocksAre(nodes) && acc.Valid()
      ensures ok ==> Now(bound, acc) == AfterAll(old(Now(bound, acc)), lowered, nodes, required)
      decreases parent, 0, 0
    {
      ghost var was := Now(bound, acc);
      ok := true;
      var i := 0;
      AfterNone(was, lowered);
      while i < |nodes|
        invariant i <= |nodes| && ok && AllBlocksAre(nodes[..i]) && acc.Valid()
        invariant Now(bound, acc) == AfterAll(was, lowered, nodes[..i], required)
      {
        ok := Walk(nodes[i], bound, acc, lowered);
        assert ok == BlocksAreFunctions(nodes[i]);
        if !ok { return; }
        AfterAllNext(was, lowered, nodes, i, required);
        i := i + 1;
      }
      assert nodes[..i] == nodes;
    }

    method WalkApply(node: Node, bound: Bound, acc: Reached, lowered: bool) returns (ok: bool)
      requires acc.Valid() && node.Apply?
      modifies this, bound, acc
      ensures ok == BlocksAreFunctions(node) && acc.Valid()
      ensures ok ==> Now(bound, acc) == AfterNode(old(Now(bound, acc)), lowered, node, required)
      decreases node, 2
    {
      ghost var was := Now(bound, acc);
      ok := Walk(node.applied, bound, acc, lowered);
      if !ok { return; }
      ok := WalkAll(node, node.arguments, bound, acc, lowered);
      AfterThen(was, lowered, FreeReads(node.applied), ReachesEnvironment(node.applied, required), SitesOf(node.applied, required),
                FreeReadsAll(node.arguments), AnyReaches(node.arguments, required), SitesOfAll(node.arguments, required));
    }

    /** `body` with `names` in force, each entered where it was not and left again. */
    method Under(parent: Node, names: set<nat>, body: Node, bound: Bound, acc: Reached, lowered: bool) returns (ok: bool)
      requires acc.Valid() && body < parent
      modifies this, bound, acc
      ensures ok == BlocksAreFunctions(body) && acc.Valid()
      ensures ok ==> Now(bound, acc) == After(old(Now(bound, acc)), lowered, Without(FreeReads(body), names),
                                              ReachesEnvironment(body, required), SitesOf(body, required))
      decreases parent, 0, 0
    {
      ghost var was := Now(bound, acc);
      var added := names - bound.names;
      bound.names := bound.names + added;
      assert bound.names == was.bound + names;
      ok := Walk(body, bound, acc, lowered);
      if ok {
        bound.names := bound.names - added;
        assert bound.names == was.bound;
        AfterUnder(was, lowered, names, FreeReads(body), ReachesEnvironment(body, required), SitesOf(body, required));
      }
    }

    method WalkLet(node: Node, bound: Bound, acc: Reached, lowered: bool) returns (ok: bool)
      requires acc.Valid() && node.Let?
      modifies this, bound, acc
      ensures ok == BlocksAreFunctions(node) && acc.Valid()
      ensures ok ==> Now(bound, acc) == AfterNode(old(Now(bound, acc)), lowered, node, required)
      decreases node, 2
    {
      ghost var was := Now(bound, acc);
      ok := Walk(node.value, bound, acc, lowered);
      if !ok { return; }
      ok := Under(node, {node.binding}, node.body, bound, acc, lowered);
      AfterThen(was, lowered, FreeReads(node.value), ReachesEnvironment(node.value, required), SitesOf(node.value, required),
                Without(FreeReads(node.body), {node.binding}), ReachesEnvironment(node.body, required), SitesOf(node.body, required));
    }

    method WalkMatch(node: Node, bound: Bound, acc: Reached, lowered: bool) returns (ok: bool)
      requires acc.Valid() && node.Match?
      modifies this, bound, acc
      ensures ok == BlocksAreFunctions(node) && acc.Valid()
      ensures ok ==> Now(bound, acc) == AfterNode(old(Now(bound, acc)), lowered, node, required)
      decreases node, 2
    {
      ghost var was := Now(bound, acc);
      var subject := node.subject;
      ok := Walk(subject, bound, acc, lowered);
      if !ok { return; }
      ok := WalkArms(node, node.arms, subject.ty, bound, acc, lowered);
      AfterThen(was, lowered, FreeReads(subject), ReachesEnvironment(subject, required), SitesOf(subject, required),
                ArmReads(node.arms, subject.ty), AnyArmReaches(node.arms, subject.ty, required), ArmSites(node.arms, subject.ty, required));
    }

    method WalkArms(parent: Node, arms: seq<Arm>, subject: Ty, bound: Bound, acc: Reached, lowered: bool) returns (ok: bool)
      requires acc.Valid() && forall i :: 0 <= i < |arms| ==> arms[i].body < parent
      modifies this, bound, acc
      ensures ok == (forall i :: 0 <= i < |arms| ==> BlocksAreFunctions(arms[i].body)) && acc.Valid()
      ensures ok ==> Now(bound, acc) == AfterArms(old(Now(bound, acc)), lowered, arms, subject, required)
      decreases parent, 1
    {
      ghost var was := Now(bound, acc);
      ok := true;
      var i := 0;
      AfterNone(was, lowered);
      while i < |arms|
        invariant i <= |arms| && ok && acc.Valid() && forall j :: 0 <= j < i ==> BlocksAreFunctions(arms[j].body)
        invariant Now(bound, acc) == AfterArms(was, lowered, arms[..i], subject, required)
      {
        ok := WalkArm(parent, arms[i], subject, bound, acc, lowered);
        assert ok == BlocksAreFunctions(arms[i].body);
        if !ok { return; }
        AfterArmsNext(was, lowered, arms, subject, i, required);
        i := i + 1;
      }
      assert arms[..i] == arms;
    }

    /** An arm: one never entered is left unrun, and what another names is in force in its body. */
    method WalkArm(parent: Node, arm: Arm, subject: Ty, bound: Bound, acc: Reached, lowered: bool) returns (ok: bool)
      requires acc.Valid() && arm.body < parent
      modifies this, bound, acc
      ensures ok == BlocksAreFunctions(arm.body) && acc.Valid()
      ensures ok ==> Now(bound, acc) == AfterArm(old(Now(bound, acc)), lowered, arm, subject, required)
      decreases parent, 0, 1
    {
      if NeverEntered(arm, subject) {
        ok := Unrun(arm.body);
      } else {
        ok := Under(parent, ArmName(arm.binding), arm.body, bound, acc, lowered);
      }
    }

    method WalkAttempt(node: Node, bound: Bound, acc: Reached, lowered: bool) returns (ok: bool)
      requires acc.Valid() && node.Attempt?
      modifies this, bound, acc
      ensures ok == BlocksAreFunctions(node) && acc.Valid()
      ensures ok ==> Now(bound, acc) == AfterNode(old(Now(bound, acc)), lowered, node, required)
      decreases node, 2
    {
      ghost var was := Now(bound, acc);
      ok := WalkAll(node, node.values, bound, acc, lowered);
      if !ok { return; }
      ok := Under(node, {node.binding}, node.built, bound, acc, lowered);
      if !ok { return; }
      ghost var built, found := Without(FreeReads(node.built), {node.binding}), SitesOf(node.built, required);
      AfterThen(was, lowered, FreeReadsAll(node.values), AnyReaches(node.values, required), SitesOfAll(node.values, required),
                built, ReachesEnvironment(node.built, required), found);
      ok := WalkDepartures(node, node.departures, bound, acc, lowered);
      AfterThen(was, lowered, FreeReadsAll(node.values) + built,
                AnyReaches(node.values, required) || ReachesEnvironment(node.built, required),
                SitesOfAll(node.values, required) + found,
                DepartureReads(node.departures), AnyDepartureReaches(node.departures, required),
                DepartureSites(node.departures, required));
    }

    method WalkDepartures(parent: Node, departures: seq<Departure>, bound: Bound, acc: Reached, lowered: bool) returns (ok: bool)
      requires acc.Valid() && forall i :: 0 <= i < |departures| ==> departures[i].body < parent
      modifies this, bound, acc
      ensures ok == (forall i :: 0 <= i < |departures| ==> BlocksAreFunctions(departures[i].body)) && acc.Valid()
      ensures ok ==> Now(bound, acc) == AfterDepartures(old(Now(bound, acc)), lowered, departures, required)
      decreases parent, 1
    {
      ghost var was := Now(bound, acc);
      ok := true;
      var i := 0;
      AfterNone(was, lowered);
      while i < |departures|
        invariant i <= |departures| && ok && acc.Valid() && forall j :: 0 <= j < i ==> BlocksAreFunctions(departures[j].body)
        invariant Now(bound, acc) == AfterDepartures(was, lowered, departures[..i], required)
      {
        ok := Walk(departures[i].body, bound, acc, lowered);
        assert ok == BlocksAreFunctions(departures[i].body);
        if !ok { return; }
        AfterDeparturesNext(was, lowered, departures, i, required);
        i := i + 1;
      }
      assert departures[..i] == departures;
    }

    /** A call: through a capability where the body was handed one, and with each function it never
        applies left unrun. */
    method WalkCall(node: Node, bound: Bound, acc: Reached, lowered: bool) returns (ok: bool)
      requires acc.Valid() && node.Call?
      modifies this, bound, acc
      ensures ok == BlocksAreFunctions(node) && acc.Valid()
      ensures ok ==> Now(bound, acc) == AfterNode(old(Now(bound, acc)), lowered, node, required)
      decreases node, 2
    {
      if node.reaches.Behavior? && node.reaches.declared in required { acc.environment := true; }
      ok := WalkArguments(node, bound, acc, lowered);
    }

    method WalkArguments(node: Node, bound: Bound, acc: Reached, lowered: bool) returns (ok: bool)
      requires acc.Valid() && node.Call?
      modifies this, bound, acc
      ensures ok == AllBlocksAre(node.arguments) && acc.Valid()
      ensures ok ==> Now(bound, acc) == AfterArguments(old(Now(bound, acc)), lowered, node.reaches, node.arguments, required)
      decreases node, 1
    {
      ghost var was := Now(bound, acc);
      var reaches, nodes := node.reaches, node.arguments;
      ok := true;
      var i := 0;
      AfterNone(was, lowered);
      while i < |nodes|
        invariant i <= |nodes| && ok && acc.Valid() && AllBlocksAre(nodes[..i])
        invariant Now(bound, acc) == AfterArguments(was, lowered, reaches, nodes[..i], required)
      {
        if NeverApplied(reaches, nodes[i]) {
          ok := Unrun(nodes[i]);
        } else {
          ok := Walk(nodes[i], bound, acc, lowered);
        }
        assert ok == BlocksAreFunctions(nodes[i]);
        if !ok { return; }
        AfterArgumentsNext(was, lowered, reaches, nodes, i, required);
        i := i + 1;
      }
      assert nodes[..i] == nodes;
    }

    /** A block: what it reaches is asked of its own parameters alone, and what it carries is reached
        by what encloses it. */
    method WalkBlock(node: Node, bound: Bound, acc: Reached, lowered: bool) returns (ok: bool)
      requires acc.Valid() && node.Block?
      modifies this, bound, acc
      ensures ok == BlocksAreFunctions(node) && acc.Valid()
      ensures ok ==> Now(bound, acc) == AfterNode(old(Now(bound, acc)), lowered, node, required)
      decreases node, 2
    {
      ghost var was := Now(bound, acc);
      if !node.ty.Fn? { return false; }
      var reached;
      ok, reached := Planned(node, lowered);
      if !ok { return; }
      GatherGathered(was.bindings, FreeReads(node), was.bound);
      acc.Bindings(bound, reached.bindings);
      acc.environment := acc.environment || reached.environment;
    }

    /** Plans `node` from a fresh accumulator whose only bound numbers are its parameters, and pushes its
        site once its body is planned; under `NeverRuns` the body is skipped. */
    method Planned(node: Node, lowered: bool) returns (ok: bool, reached: Reached)
      requires node.Block? && node.ty.Fn?
      modifies this
      ensures fresh(reached) && reached.Valid() && ok == BlocksAreFunctions(node)
      ensures ok ==> reached.bindings == PlanOf(node, required).captures == Gather([], FreeReads(node))
      ensures ok ==> reached.environment == PlanOf(node, required).environment == ReachesEnvironment(node, required)
      ensures ok ==> sites == old(sites) + (if lowered then SitesOf(node, required) else [])
      decreases node, 1
    {
      reached := new Reached();
      var runs := !NeverRuns(node.ty.takes);
      if runs {
        var own := new Bound(NumbersIn(node.parameters));
        ok, reached := Free(node.body, own, lowered);
      } else {
        ok := Unrun(node.body);
      }
      if ok && lowered { sites := sites + [Site(node, reached.bindings, reached.environment, runs)]; }
    }

    /** The step of a `Walk`, in the accumulator of the enclosing node: `bound` grows by each number around
        it and by the step's two, and is what it was on return. */
    method WalkStep(node: Node, bound: Bound, acc: Reached, lowered: bool) returns (ok: bool)
      requires acc.Valid() && node.Walk?
      modifies this, bound, acc
      ensures ok == BlocksAreFunctions(node) && acc.Valid()
      ensures ok ==> Now(bound, acc) == AfterNode(old(Now(bound, acc)), lowered, node, required)
      decreases node, 2
    {
      ghost var was := Now(bound, acc);
      var runs := !NeverRuns(node.takes);
      if runs {
        ok := WalkFrom(node, 0, bound, acc, lowered);
      } else {
        ok := UnrunStep(node);
      }
      if !ok { return; }
      var rest := [node.walked, node.from];
      assert AllBlocksAre(rest) <==> BlocksAreFunctions(rest[0]) && BlocksAreFunctions(rest[1]);
      ok := WalkAll(node, rest, bound, acc, lowered);
      AfterWalk(was, lowered, node, required);
    }

    method UnrunStep(node: Node) returns (ok: bool)
      requires node.Walk?
      modifies this
      ensures ok == (BlocksAreFunctions(node.body) && forall i :: 0 <= i < |node.around| ==> BlocksAreFunctions(node.around[i].value))
      ensures ok ==> sites == old(sites)
      decreases node, 1
    {
      ok := true;
      for i := 0 to |node.around|
        invariant ok && sites == old(sites) && forall j :: 0 <= j < i ==> BlocksAreFunctions(node.around[j].value)
      {
        assert node.around[i].value < node.around[i];
        ok := Unrun(node.around[i].value);
        assert ok == BlocksAreFunctions(node.around[i].value);
        if !ok { return; }
      }
      ok := Unrun(node.body);
    }

    /** `WalkStep` from the let at `at`, by recursion on the lets left. */
    method WalkFrom(node: Node, at: nat, bound: Bound, acc: Reached, lowered: bool) returns (ok: bool)
      requires acc.Valid() && node.Walk? && at <= |node.around|
      modifies this, bound, acc
      ensures ok == (BlocksAreFunctions(node.body) && forall i :: at <= i < |node.around| ==> BlocksAreFunctions(node.around[i].value))
      ensures acc.Valid()
      ensures ok ==> Now(bound, acc) == AfterStep(old(Now(bound, acc)), lowered, node, at, required)
      decreases node, 1, |node.around| - at
    {
      ghost var was := Now(bound, acc);
      if at == |node.around| {
        ok := Under(node, {node.grown, node.each}, node.body, bound, acc, lowered);
        assert node.around[at..] == [];
        return;
      }
      var first := node.around[at];
      assert first.value < first;
      ok := Walk(first.value, bound, acc, lowered);
      if !ok { return; }
      var added := {first.binding} - bound.names;
      bound.names := bound.names + added;
      ghost var inner := Now(bound, acc);
      assert inner == AfterNode(was, lowered, first.value, required).(bound := was.bound + {first.binding});
      ok := WalkFrom(node, at + 1, bound, acc, lowered);
      if ok {
        AfterStepNext(was, lowered, node, at, required);
        bound.names := bound.names - added;
        assert bound.names == was.bound;
        assert Now(bound, acc) == AfterStep(inner, lowered, node, at + 1, required).(bound := was.bound);
      }
    }
  }

  lemma AfterNone(s: State, lowered: bool)
    ensures After(s, lowered, [], false, []) == s
  {
    assert s.sites + [] == s.sites;
  }

  function StepReads(node: Node): seq<Reach>
    requires node.Walk?
  {
    if NeverRuns(node.takes) then []
    else AroundReads(node.around, Without(FreeReads(node.body), {node.grown, node.each}))
  }

  function StepSites(node: Node, required: seq<string>): seq<Site>
    requires node.Walk?
  {
    if NeverRuns(node.takes) then [] else AroundSites(node.around, required) + SitesOf(node.body, required)
  }

  predicate StepReaches(node: Node, required: seq<string>)
    requires node.Walk?
  {
    !NeverRuns(node.takes) && ReachesFrom(node, 0, required)
  }

  lemma WalkReads(node: Node, required: seq<string>)
    requires node.Walk?
    ensures FreeReads(node) == StepReads(node) + FreeReadsAll([node.walked, node.from])
    ensures SitesOf(node, required) == StepSites(node, required) + SitesOfAll([node.walked, node.from], required)
  {
    SeveralOf([node.walked, node.from], required);
  }

  lemma WalkReaches(node: Node, required: seq<string>)
    requires node.Walk?
    ensures ReachesEnvironment(node, required) == (StepReaches(node, required) || AnyReaches([node.walked, node.from], required))
  {
    AnyOfTwo(node.walked, node.from, required);
  }

  /** A whole walk: its step where it runs, and then the list walked and where it starts. */
  lemma AfterWalk(s: State, lowered: bool, node: Node, required: seq<string>)
    requires node.Walk?
    ensures AfterAll(if NeverRuns(node.takes) then s else AfterStep(s, lowered, node, 0, required), lowered,
                     [node.walked, node.from], required)
         == AfterNode(s, lowered, node, required)
  {
    var rest := [node.walked, node.from];
    WalkReads(node, required);
    WalkReaches(node, required);
    AfterThen(s, lowered, StepReads(node), StepReaches(node, required), StepSites(node, required),
              FreeReadsAll(rest), AnyReaches(rest, required), SitesOfAll(rest, required));
    AfterNone(s, lowered);
    assert node.around[0..] == node.around;
  }

  lemma AnyOfTwo(a: Node, b: Node, required: seq<string>)
    ensures AnyReaches([a, b], required) <==> ReachesEnvironment(a, required) || ReachesEnvironment(b, required)
  {
    assert [a, b][0] == a && [a, b][1] == b;
  }

  /** Two or three nodes one after another. */
  lemma SeveralOf(nodes: seq<Node>, required: seq<string>)
    requires 2 <= |nodes| <= 3
    ensures FreeReadsAll(nodes) == FreeReads(nodes[0]) + FreeReads(nodes[1]) + (if |nodes| == 3 then FreeReads(nodes[2]) else [])
    ensures SitesOfAll(nodes, required) ==
            SitesOf(nodes[0], required) + SitesOf(nodes[1], required) + (if |nodes| == 3 then SitesOf(nodes[2], required) else [])
  {
    if |nodes| == 3 { ReadsOfThree(nodes); } else { ReadsOfTwo(nodes); }
    SitesOfSeveral(nodes, required);
  }

  lemma ReadsNext(nodes: seq<Node>, last: nat)
    requires |nodes| == last + 1
    ensures FreeReadsAll(nodes) == FreeReadsAll(nodes[..last]) + FreeReads(nodes[last])
  {
  }

  lemma ReadsOfOne(nodes: seq<Node>)
    requires |nodes| == 1
    ensures FreeReadsAll(nodes) == FreeReads(nodes[0])
  {
    assert nodes[..0] == [];
    ReadsNext(nodes, 0);
  }

  lemma ReadsOfTwo(nodes: seq<Node>)
    requires |nodes| == 2
    ensures FreeReadsAll(nodes) == FreeReads(nodes[0]) + FreeReads(nodes[1])
  {
    ReadsOfOne(nodes[..1]);
    ReadsNext(nodes, 1);
  }

  lemma ReadsOfThree(nodes: seq<Node>)
    requires |nodes| == 3
    ensures FreeReadsAll(nodes) == FreeReads(nodes[0]) + FreeReads(nodes[1]) + FreeReads(nodes[2])
  {
    ReadsOfTwo(nodes[..2]);
    ReadsNext(nodes, 2);
  }

  lemma SitesOfSeveral(nodes: seq<Node>, required: seq<string>)
    requires 2 <= |nodes| <= 3
    ensures SitesOfAll(nodes, required) ==
            SitesOf(nodes[0], required) + SitesOf(nodes[1], required) + (if |nodes| == 3 then SitesOf(nodes[2], required) else [])
  {
    var one, two := nodes[..1], nodes[..2];
    assert one[..0] == [] && one[0] == nodes[0] && two[..1] == one && two[1] == nodes[1];
    assert SitesOfAll(one, required) == SitesOf(nodes[0], required);
    assert SitesOfAll(two, required) == SitesOf(nodes[0], required) + SitesOf(nodes[1], required);
    if |nodes| == 2 { assert nodes == two; }
  }

  // ----- one more of several -----

  predicate AnyArmReaches(arms: seq<Arm>, subject: Ty, required: seq<string>) {
    exists i :: 0 <= i < |arms| && !NeverEntered(arms[i], subject) && ReachesEnvironment(arms[i].body, required)
  }

  predicate AnyDepartureReaches(departures: seq<Departure>, required: seq<string>) {
    exists i :: 0 <= i < |departures| && ReachesEnvironment(departures[i].body, required)
  }

  predicate AnyArgumentReaches(reaches: Reaches, nodes: seq<Node>, required: seq<string>) {
    exists i :: 0 <= i < |nodes| && !NeverApplied(reaches, nodes[i]) && ReachesEnvironment(nodes[i], required)
  }

  predicate ReachesFrom(node: Node, at: nat, required: seq<string>)
    requires node.Walk?
  {
    ReachesEnvironment(node.body, required) ||
    exists i :: at <= i < |node.around| && ReachesEnvironment(node.around[i].value, required)
  }

  lemma AnyReachesNext(nodes: seq<Node>, i: nat, required: seq<string>)
    requires i < |nodes|
    ensures AnyReaches(nodes[..i + 1], required) <==> AnyReaches(nodes[..i], required) || ReachesEnvironment(nodes[i], required)
  {
    if AnyReaches(nodes[..i], required) {
      var j :| 0 <= j < i && ReachesEnvironment(nodes[..i][j], required);
      assert nodes[..i + 1][j] == nodes[..i][j];
    }
    if ReachesEnvironment(nodes[i], required) { assert nodes[..i + 1][i] == nodes[i]; }
    if AnyReaches(nodes[..i + 1], required) {
      var j :| 0 <= j < i + 1 && ReachesEnvironment(nodes[..i + 1][j], required);
      if j < i { assert nodes[..i][j] == nodes[..i + 1][j]; }
    }
  }

  lemma AnyArmReachesNext(arms: seq<Arm>, i: nat, subject: Ty, required: seq<string>)
    requires i < |arms|
    ensures AnyArmReaches(arms[..i + 1], subject, required) <==>
      AnyArmReaches(arms[..i], subject, required) || (!NeverEntered(arms[i], subject) && ReachesEnvironment(arms[i].body, required))
  {
    if AnyArmReaches(arms[..i + 1], subject, required) {
      var j :| 0 <= j < i + 1 && !NeverEntered(arms[..i + 1][j], subject) && ReachesEnvironment(arms[..i + 1][j].body, required);
      if j < i { assert arms[..i][j] == arms[..i + 1][j]; }
    }
    if AnyArmReaches(arms[..i], subject, required) {
      var j :| 0 <= j < i && !NeverEntered(arms[..i][j], subject) && ReachesEnvironment(arms[..i][j].body, required);
      assert arms[..i + 1][j] == arms[..i][j];
    }
    assert arms[..i + 1][i] == arms[i];
  }

  lemma AnyDepartureReachesNext(departures: seq<Departure>, i: nat, required: seq<string>)
    requires i < |departures|
    ensures AnyDepartureReaches(departures[..i + 1], required) <==>
      AnyDepartureReaches(departures[..i], required) || ReachesEnvironment(departures[i].body, required)
  {
    if AnyDepartureReaches(departures[..i + 1], required) {
      var j :| 0 <= j < i + 1 && ReachesEnvironment(departures[..i + 1][j].body, required);
      if j < i { assert departures[..i][j] == departures[..i + 1][j]; }
    }
    if AnyDepartureReaches(departures[..i], required) {
      var j :| 0 <= j < i && ReachesEnvironment(departures[..i][j].body, required);
      assert departures[..i + 1][j] == departures[..i][j];
    }
    assert departures[..i + 1][i] == departures[i];
  }

  lemma AnyArgumentReachesNext(reaches: Reaches, nodes: seq<Node>, i: nat, required: seq<string>)
    requires i < |nodes|
    ensures AnyArgumentReaches(reaches, nodes[..i + 1], required) <==>
      AnyArgumentReaches(reaches, nodes[..i], required) || (!NeverApplied(reaches, nodes[i]) && ReachesEnvironment(nodes[i], required))
  {
    if AnyArgumentReaches(reaches, nodes[..i + 1], required) {
      var j :| 0 <= j < i + 1 && !NeverApplied(reaches, nodes[..i + 1][j]) && ReachesEnvironment(nodes[..i + 1][j], required);
      if j < i { assert nodes[..i][j] == nodes[..i + 1][j]; }
    }
    if AnyArgumentReaches(reaches, nodes[..i], required) {
      var j :| 0 <= j < i && !NeverApplied(reaches, nodes[..i][j]) && ReachesEnvironment(nodes[..i][j], required);
      assert nodes[..i + 1][j] == nodes[..i][j];
    }
    assert nodes[..i + 1][i] == nodes[i];
  }
}
