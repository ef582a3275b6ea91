/** Where a step may name the list its walk grows (native/crates/compiler/src/growing.rs): the pass over a
    body as it carries its set of names along, `Ordinary` and `Answering`, and as its class changes it;
    and which names are in force where the lowering comes to them, `Scoped` and `ScopedAnswer`
    (`Bindings` in native/crates/compiler/src/lib.rs).

    The two keep their sets differently. The pass puts a name in and takes none out before its step ends;
    the lowering takes one out with the `let` that bound it. */
module Growing {
  import opened Options
  import opened Transport
  import opened Declarations

  /** What is asked of steps besides what the pass asks: of a map's, that what it answers fits what it is
      handed next; of a list's, that it keeps its names. The pass itself is `PASS`. */
  datatype Steps = Steps(maps: Option<Declared>, names: bool)

  const PASS: Steps := Steps(None, false)

  predicate StepHeld(maps: Option<Declared>, takes: seq<Ty>, answers: Ty) {
    maps.Some? && |takes| == 2 && !NeverRuns(takes) ==> Fits(maps.value, answers, takes[0])
  }

  predicate NamesTheGrown(node: Node, growing: set<nat>) {
    || (node.Read? && node.binding in growing)
    || (node.Widen? && node.value.Read? && node.value.binding in growing)
  }

  // ----- the pass, by the set it is left with -----

  /** A node outside the answers of a step: `growing` as the node leaves it, or `None` where it is refused.
      `outside` are the names of the steps around this one. */
  function Ordinary(steps: Steps, node: Node, growing: set<nat>, outside: set<nat>): (r: Option<set<nat>>)
    ensures r.Some? ==> growing <= r.value
    decreases node, 2
  {
    if node.Read? then
      if node.binding in growing || node.binding in outside then None else Some(growing)
    else if node.Call? && node.reaches.GrowList? then None
    else if node.Walk? then
      match OrdinaryWalked(steps, node, growing, outside)
      case None => None
      case Some(after) =>
        match Ordinary(steps, node.walked, after, outside)
        case None => None
        case Some(g) => Ordinary(steps, node.from, g, outside)
    else if node.Let? && NamesTheGrown(node.value, growing) then
      Ordinary(steps, node.body, growing + {node.binding}, outside)
    else OrdinaryFrom(steps, node, 0, growing, outside)
  }

  /** The children of a node from `at` on. */
  function OrdinaryFrom(steps: Steps, node: Node, at: nat, growing: set<nat>, outside: set<nat>): (r: Option<set<nat>>)
    requires at <= |Children(node)|
    ensures r.Some? ==> growing <= r.value
    decreases node, 1, |Children(node)| - at
  {
    if at == |Children(node)| then Some(growing)
    else
      match Ordinary(steps, Children(node)[at], growing, outside)
      case None => None
      case Some(g) => OrdinaryFrom(steps, node, at + 1, g, outside)
  }

  /** A walk's step: a list's answers within the walk's own names, which are gone after it; a map's is
      code like any other, under its lets. */
  function OrdinaryWalked(steps: Steps, node: Node, growing: set<nat>, outside: set<nat>): (r: Option<set<nat>>)
    requires node.Walk?
    ensures r.Some? ==> growing <= r.value
    decreases node, 1
  {
    match node.builds
    case BuildsMap => if StepHeld(steps.maps, node.takes, node.answers) then OrdinaryStep(steps, node, 0, growing, outside) else None
    case BuildsList =>
      match OrdinaryAround(steps, node, 0, growing, outside)
      case None => None
      case Some(g) =>
        if Answering(steps, node.body, {node.grown}, g + outside).None? then None
        else if steps.names && !NeverRuns(node.takes) && !KeepsNames(steps, node.body, {node.grown}, g + outside) then None
        else Some(g)
  }

  function OrdinaryAround(steps: Steps, node: Node, at: nat, growing: set<nat>, outside: set<nat>): (r: Option<set<nat>>)
    requires node.Walk? && at <= |node.around|
    ensures r.Some? ==> growing <= r.value
    decreases node, 0, |node.around| - at
  {
    if at == |node.around| then Some(growing)
    else
      assert node.around[at].value < node.around[at];
      match Ordinary(steps, node.around[at].value, growing, outside)
      case None => None
      case Some(g) => OrdinaryAround(steps, node, at + 1, g, outside)
  }

  /** A map's step from the let at `at` on, one of which may name the list an enclosing step grows. */
  function OrdinaryStep(steps: Steps, node: Node, at: nat, growing: set<nat>, outside: set<nat>): (r: Option<set<nat>>)
    requires node.Walk? && at <= |node.around|
    ensures r.Some? ==> growing <= r.value
    decreases node, 0, |node.around| - at
  {
    if at == |node.around| then Ordinary(steps, node.body, growing, outside)
    else
      var first := node.around[at];
      assert first.value < first;
      if NamesTheGrown(first.value, growing) then OrdinaryStep(steps, node, at + 1, growing + {first.binding}, outside)
      else
        match Ordinary(steps, first.value, growing, outside)
        case None => None
        case Some(g) => OrdinaryStep(steps, node, at + 1, g, outside)
  }

  /** A node where a step answers: a name, something added to what a name is of, or a fork of those. */
  function Answering(steps: Steps, node: Node, growing: set<nat>, outside: set<nat>): (r: Option<set<nat>>)
    ensures r.Some? ==> growing <= r.value
    decreases node, 2
  {
    match node
    case Read(binding, _) => if binding in growing then Some(growing) else None
    case Unreachable(_) => Some(growing)
    case Widen(value, _) => Answering(steps, value, growing, outside)
    case Let(binding, _, value, body, _) =>
      if NamesTheGrown(value, growing) then Answering(steps, body, growing + {binding}, outside)
      else
        (match Ordinary(steps, value, growing, outside)
         case None => None
         case Some(g) => Answering(steps, body, g, outside))
    case If(cond, yes, no, _) =>
      (match Ordinary(steps, cond, growing, outside)
       case None => None
       case Some(g) =>
         match Answering(steps, yes, g, outside)
         case None => None
         case Some(h) => Answering(steps, no, h, outside))
    case Match(subject, _, _) =>
      (match Ordinary(steps, subject, growing, outside)
       case None => None
       case Some(g) => AnsweringArms(steps, node, 0, g, outside))
    case Call(reaches, arguments, _) =>
      if reaches.GrowList? && |arguments| == 2 && NamesTheGrown(arguments[0], growing) then
        Ordinary(steps, arguments[1], growing, outside)
      else None
    case _ => None
  }

  function AnsweringArms(steps: Steps, node: Node, at: nat, growing: set<nat>, outside: set<nat>): (r: Option<set<nat>>)
    requires node.Match? && at <= |node.arms|
    ensures r.Some? ==> growing <= r.value
    decreases node, 1, |node.arms| - at
  {
    if at == |node.arms| then Some(growing)
    else
      assert node.arms[at].body < node.arms[at];
      match Answering(steps, node.arms[at].body, growing, outside)
      case None => None
      case Some(g) => AnsweringArms(steps, node, at + 1, g, outside)
  }

  /** No answer is come to: every way through ends the run. */
  predicate Ends(node: Node)
    decreases node
  {
    match node
    case Unreachable(_) => true
    case Widen(value, _) => Ends(value)
    case Let(_, _, _, body, _) => Ends(body)
    case If(_, yes, no, _) => Ends(yes) && Ends(no)
    case Match(_, arms, _) => forall i :: 0 <= i < |arms| ==> Ends(arms[i].body)
    case _ => false
  }

  /** No let and no arm on the way to an answer takes, for anything but the list, a number the pass has for
      a name of the list by then. */
  predicate KeepsNames(steps: Steps, node: Node, growing: set<nat>, outside: set<nat>)
    decreases node, 2
  {
    match node
    case Widen(value, _) => KeepsNames(steps, value, growing, outside)
    case Let(binding, _, value, body, _) =>
      if NamesTheGrown(value, growing) then KeepsNames(steps, body, growing + {binding}, outside)
      else
        (match Ordinary(steps, value, growing, outside)
         case None => false
         case Some(g) => (binding !in g || Ends(body)) && KeepsNames(steps, body, g, outside))
    case If(cond, yes, no, _) =>
      (match Ordinary(steps, cond, growing, outside)
       case None => false
       case Some(g) =>
         KeepsNames(steps, yes, g, outside) &&
         match Answering(steps, yes, g, outside)
         case None => false
         case Some(h) => KeepsNames(steps, no, h, outside))
    case Match(subject, _, _) =>
      (match Ordinary(steps, subject, growing, outside)
       case None => false
       case Some(g) => ArmsKeepNames(steps, node, 0, g, outside))
    case _ => true
  }

  function NumbersOf(binding: ArmBinding): set<nat> {
    match binding
    case NoName => {}
    case Selected(number, _) => {number}
    case Payload(number, _) => {number}
  }

  predicate ArmsKeepNames(steps: Steps, node: Node, at: nat, growing: set<nat>, outside: set<nat>)
    requires node.Match? && at <= |node.arms|
    decreases node, 1, |node.arms| - at
  {
    at == |node.arms| ||
    (var arm := node.arms[at];
     assert arm.body < arm;
     && (NumbersOf(arm.binding) !! growing || Ends(arm.body))
     && KeepsNames(steps, arm.body, growing, outside)
     && match Answering(steps, arm.body, growing, outside)
        case None => false
        case Some(g) => ArmsKeepNames(steps, node, at + 1, g, outside))
  }

  /** A body as the pass is begun on it. */
  predicate Confined(body: Node) {
    Ordinary(PASS, body, {}, {}).Some?
  }

  // ----- the pass, as it is carried out -----

  /** One step's names for its list, and those of every step around it, each put in where it is met. */
  class Confining {
    var growing: set<nat>
    var outside: set<nat>

    constructor ()
      ensures growing == {} && outside == {}
    {
      growing, outside := {}, {};
    }

    method HoldOrdinary(node: Node) returns (ok: bool)
      modifies this
      ensures outside == old(outside)
      ensures var r := Ordinary(PASS, node, old(growing), outside); ok == r.Some? && (ok ==> growing == r.value)
      decreases node, 4
    {
      if node.Read? { return node.binding !in growing && node.binding !in outside; }
      if node.Call? && node.reaches.GrowList? { return false; }
      if node.Walk? {
        ok := HoldWalk(node);
        return;
      }
      if node.Let? && NamesTheGrown(node.value, growing) {
        growing := growing + {node.binding};
        ok := HoldOrdinary(node.body);
        return;
      }
      ok := HoldChildren(node);
    }

    method HoldChildren(node: Node) returns (ok: bool)
      modifies this
      ensures outside == old(outside)
      ensures var r := OrdinaryFrom(PASS, node, 0, old(growing), outside); ok == r.Some? && (ok ==> growing == r.value)
      decreases node, 3
    {
      for i := 0 to |Children(node)|
        invariant outside == old(outside)
        invariant OrdinaryFrom(PASS, node, 0, old(growing), outside) == OrdinaryFrom(PASS, node, i, growing, outside)
      {
        ok := HoldOrdinary(Children(node)[i]);
        if !ok { return; }
      }
      ok := true;
    }

    method HoldWalk(node: Node) returns (ok: bool)
      requires node.Walk?
      modifies this
      ensures outside == old(outside)
      ensures var r := Ordinary(PASS, node, old(growing), outside); ok == r.Some? && (ok ==> growing == r.value)
      decreases node, 3
    {
      match node.builds {
        case BuildsList =>
          ok := HoldAround(node);
          if !ok { return; }
          ok := HoldStep(node.grown, node.body);
        case BuildsMap => ok := HoldMapStep(node);
      }
      if !ok { return; }
      ok := HoldOrdinary(node.walked);
      if !ok { return; }
      ok := HoldOrdinary(node.from);
    }

    method HoldAround(node: Node) returns (ok: bool)
      requires node.Walk?
      modifies this
      ensures outside == old(outside)
      ensures var r := OrdinaryAround(PASS, node, 0, old(growing), outside); ok == r.Some? && (ok ==> growing == r.value)
      decreases node, 2
    {
      for i := 0 to |node.around|
        invariant outside == old(outside)
        invariant OrdinaryAround(PASS, node, 0, old(growing), outside) == OrdinaryAround(PASS, node, i, growing, outside)
      {
        assert node.around[i].value < node.around[i];
        ok := HoldOrdinary(node.around[i].value);
        if !ok { return; }
      }
      ok := true;
    }

    /** The step of a map's walk, under its lets. */
    method HoldMapStep(node: Node) returns (ok: bool)
      requires node.Walk?
      modifies this
      ensures outside == old(outside)
      ensures var r := OrdinaryStep(PASS, node, 0, old(growing), outside); ok == r.Some? && (ok ==> growing == r.value)
      decreases node, 2
    {
      for i := 0 to |node.around|
        invariant outside == old(outside)
        invariant OrdinaryStep(PASS, node, 0, old(growing), outside) == OrdinaryStep(PASS, node, i, growing, outside)
      {
        var first := node.around[i];
        assert first.value < first;
        if NamesTheGrown(first.value, growing) {
          growing := growing + {first.binding};
        } else {
          ok := HoldOrdinary(first.value);
          if !ok { return; }
        }
      }
      ok := HoldOrdinary(node.body);
    }

    /** A list's step: `outside` gains what `growing` had, and both are put back. */
    method HoldStep(grown: nat, body: Node) returns (ok: bool)
      modifies this
      ensures outside == old(outside) && growing == old(growing)
      ensures ok <==> Answering(PASS, body, {grown}, growing + outside).Some?
      decreases body, 5
    {
      var enclosing, around := growing, outside;
      growing, outside := {grown}, enclosing + around;
      ok := HoldAnswering(body);
      growing, outside := enclosing, around;
    }

    method HoldAnswering(node: Node) returns (ok: bool)
      modifies this
      ensures outside == old(outside)
      ensures var r := Answering(PASS, node, old(growing), outside); ok == r.Some? && (ok ==> growing == r.value)
      decreases node, 4
    {
      match node
      case Read(binding, _) => ok := binding in growing;
      case Unreachable(_) => ok := true;
      case Widen(value, _) => ok := HoldAnswering(value);
      case Let(binding, _, value, body, _) =>
        if NamesTheGrown(value, growing) {
          growing := growing + {binding};
        } else {
          ok := HoldOrdinary(value);
          if !ok { return; }
        }
        ok := HoldAnswering(body);
      case If(cond, yes, no, _) =>
        ok := HoldOrdinary(cond);
        if !ok { return; }
        ok := HoldAnswering(yes);
        if !ok { return; }
        ok := HoldAnswering(no);
      case Match(subject, _, _) =>
        ok := HoldOrdinary(subject);
        if !ok { return; }
        ok := HoldArms(node);
      case Call(reaches, arguments, _) =>
        if !reaches.GrowList? || |arguments| != 2 || !NamesTheGrown(arguments[0], growing) { return false; }
        ok := HoldOrdinary(arguments[1]);
      case _ => ok := false;
    }

    method HoldArms(node: Node) returns (ok: bool)
      requires node.Match?
      modifies this
      ensures outside == old(outside)
      ensures var r := AnsweringArms(PASS, node, 0, old(growing), outside); ok == r.Some? && (ok ==> growing == r.value)
      decreases node, 3
    {
      for i := 0 to |node.arms|
        invariant outside == old(outside)
        invariant AnsweringArms(PASS, node, 0, old(growing), outside) == AnsweringArms(PASS, node, i, growing, outside)
      {
        assert node.arms[i].body < node.arms[i];
        ok := HoldAnswering(node.arms[i].body);
        if !ok { return; }
      }
      ok := true;
    }
  }

  // ----- the names in force -----

  /** A node outside the answers of a step, by the names in force there: `named` are this step's for its
      list and `outside` those of the steps around it. None of them is read and nothing is grown, and a
      name is in force for the body of the `let` that bound it. A step never applied is not come to. */
  predicate Scoped(maps: Option<Declared>, node: Node, named: set<nat>, outside: set<nat>)
    decreases node
  {
    match node
    case Read(binding, _) => binding !in named && binding !in outside
    case Literal(_, _) => true
    case UnitNode(_, _) => true
    case Unreachable(_) => true
    case AbsentNode(_) => true
    case Construct(_, values, _) => ScopedAll(maps, values, named, outside)
    case Attempt(_, values, _, _, built, departures, _) =>
      && ScopedAll(maps, values, named, outside) && Scoped(maps, built, named, outside)
      && forall i :: 0 <= i < |departures| ==> Scoped(maps, departures[i].body, named, outside)
    case FieldOf(target, _, _) => Scoped(maps, target, named, outside)
    case Let(binding, _, value, body, _) =>
      if NamesTheGrown(value, named) then Scoped(maps, body, named + {binding}, outside)
      else Scoped(maps, value, named, outside) && Scoped(maps, body, named, outside)
    case If(cond, yes, no, _) =>
      Scoped(maps, cond, named, outside) && Scoped(maps, yes, named, outside) && Scoped(maps, no, named, outside)
    case Match(subject, arms, _) =>
      && Scoped(maps, subject, named, outside)
      && forall i :: 0 <= i < |arms| ==> Scoped(maps, arms[i].body, named, outside)
    case PresentNode(value, _) => Scoped(maps, value, named, outside)
    case TupleNode(nodes, _) => ScopedAll(maps, nodes, named, outside)
    case Member(tuple, _, _) => Scoped(maps, tuple, named, outside)
    case ListNode(nodes, _) => ScopedAll(maps, nodes, named, outside)
    case Call(reaches, arguments, _) => !reaches.GrowList? && ScopedAll(maps, arguments, named, outside)
    case Walk(builds, around, grown, _, body, takes, answers, walked, from, _) =>
      && (NeverRuns(takes) ||
          match builds
          case BuildsList =>
            && (forall i :: 0 <= i < |around| ==> Scoped(maps, around[i].value, named, outside))
            && ScopedAnswer(maps, body, {grown}, named + outside)
          case BuildsMap =>
            ScopedStep(maps, node, 0, named, outside) && StepHeld(maps, takes, answers))
      && Scoped(maps, walked, named, outside) && Scoped(maps, from, named, outside)
    case Block(_, _, body, _) => Scoped(maps, body, named, outside)
    case Apply(applied, arguments, _) => Scoped(maps, applied, named, outside) && ScopedAll(maps, arguments, named, outside)
    case Widen(value, _) => Scoped(maps, value, named, outside)
  }

  /** `Scoped` for the step of a map's walk, from the let at `at` on: `named` gains the number of each
      let that names an enclosing accumulator. */
  predicate ScopedStep(maps: Option<Declared>, node: Node, at: nat, named: set<nat>, outside: set<nat>)
    requires node.Walk? && at <= |node.around|
    decreases node, |node.around| - at
  {
    if at == |node.around| then Scoped(maps, node.body, named, outside)
    else
      var first := node.around[at];
      assert first.value < first;
      if NamesTheGrown(first.value, named) then ScopedStep(maps, node, at + 1, named + {first.binding}, outside)
      else Scoped(maps, first.value, named, outside) && ScopedStep(maps, node, at + 1, named, outside)
  }

  predicate ScopedAll(maps: Option<Declared>, nodes: seq<Node>, named: set<nat>, outside: set<nat>)
    decreases nodes
  {
    forall i :: 0 <= i < |nodes| ==> Scoped(maps, nodes[i], named, outside)
  }

  /** A node where a step answers: every answer is of a name in force for the list the step grows. */
  predicate ScopedAnswer(maps: Option<Declared>, node: Node, named: set<nat>, outside: set<nat>)
    decreases node
  {
    match node
    case Read(binding, _) => binding in named
    case Unreachable(_) => true
    case Widen(value, _) => ScopedAnswer(maps, value, named, outside)
    case Let(binding, _, value, body, _) =>
      if NamesTheGrown(value, named) then ScopedAnswer(maps, body, named + {binding}, outside)
      else Scoped(maps, value, named, outside) && ScopedAnswer(maps, body, named, outside)
    case If(cond, yes, no, _) =>
      Scoped(maps, cond, named, outside) && ScopedAnswer(maps, yes, named, outside) && ScopedAnswer(maps, no, named, outside)
    case Match(subject, arms, _) =>
      && Scoped(maps, subject, named, outside)
      && forall i :: 0 <= i < |arms| ==> ScopedAnswer(maps, arms[i].body, named, outside)
    case Call(reaches, arguments, _) =>
      && reaches.GrowList? && |arguments| == 2
      && NamesTheGrown(arguments[0], named) && Scoped(maps, arguments[1], named, outside)
    case _ => false
  }
}
