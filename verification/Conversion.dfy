/** Running closures with what was planned for them and nothing else means what running them with
    their whole lexical scope does. */
module Conversion {
  import opened Transport
  import opened Declarations
  import opened Machine
  import opened Closures

  /** What a closure of `block` carries by its plan: the captures, out of what is in force where it is
      made, and what the body was handed only where the plan says the block reaches it. */
  function KeptByPlan(block: Node, f: Frame): Frame {
    if !block.Block? then f
    else
      var plan := PlanOf(block, f.required);
      Frame(map x | x in f.bindings && x in Names(plan.captures) :: f.bindings[x], f.required,
            if plan.environment then f.environment else Unhanded)
  }

  const ByPlan: Policy := Planned(KeptByPlan)

  // ----- values that mean the same -----

  /** Alike but for what their closures carry and never read. */
  ghost predicate Alike(a: Value, b: Value)
    decreases a
  {
    match a
    case Record(declared, fields) =>
      b.Record? && b.declared == declared && |b.fields| == |fields| && forall i :: 0 <= i < |fields| ==> Alike(fields[i], b.fields[i])
    case PresentOf(value) => b.PresentOf? && Alike(value, b.value)
    case Members(members) => b.Members? && |b.members| == |members| && forall i :: 0 <= i < |members| ==> Alike(members[i], b.members[i])
    case GrowingOf(elements) =>
      b.GrowingOf? && |b.elements| == |elements| && forall i :: 0 <= i < |elements| ==> Alike(elements[i], b.elements[i])
    case Elements(elements) =>
      b.Elements? && |b.elements| == |elements| && forall i :: 0 <= i < |elements| ==> Alike(elements[i], b.elements[i])
    case SetOf(elements) =>
      b.SetOf? && |b.elements| == |elements| && forall i :: 0 <= i < |elements| ==> Alike(elements[i], b.elements[i])
    case MapOf(keys, values) =>
      && b.MapOf? && |b.keys| == |keys| && |b.values| == |values|
      && (forall i :: 0 <= i < |keys| ==> Alike(keys[i], b.keys[i]))
      && (forall i :: 0 <= i < |values| ==> Alike(values[i], b.values[i]))
    case Closure(parameters, body, f) =>
      && b.Closure? && b.parameters == parameters && b.body == body
      && b.frame.required == f.required
      && (ReachesEnvironment(body, f.required) ==> b.frame.environment == f.environment)
      && forall x :: x in Free(body) - NumbersIn(parameters) ==>
           && (x in f.bindings <==> x in b.frame.bindings)
           && (x in f.bindings ==> Alike(f.bindings[x], b.frame.bindings[x]))
    case ScalarOf(_) => a == b
    case LanguageOf(_) => a == b
    case AbsentOf => a == b
    case NoCode => a == b
  }

  ghost predicate AllAlike(a: seq<Value>, b: seq<Value>) {
    |a| == |b| && forall i :: 0 <= i < |a| ==> Alike(a[i], b[i])
  }

  ghost predicate Same(a: Outcome, b: Outcome) {
    if a.Answered? then b.Answered? && a.left == b.left && Alike(a.value, b.value) else a == b
  }

  ghost predicate SameAll(a: Outcomes, b: Outcomes) {
    if a.AllAnswered? then b.AllAnswered? && a.left == b.left && AllAlike(a.values, b.values) else a == b
  }

  /** Two frames agreeing on some names: each bound in both or in neither, to values alike. */
  ghost predicate AgreeOn(f: Frame, g: Frame, names: set<nat>, environment: bool) {
    && f.required == g.required
    && (environment ==> f.environment == g.environment)
    && forall x :: x in names ==>
         && (x in f.bindings <==> x in g.bindings)
         && (x in f.bindings ==> Alike(f.bindings[x], g.bindings[x]))
  }

  // ----- what is taken of what the document does not say -----

  ghost predicate VerdictRespects(w: World, declared: string, a: seq<Value>, b: seq<Value>) {
    AllAlike(a, b) ==> w.verdict(declared, a) == w.verdict(declared, b)
  }

  ghost predicate PlacedRespects(w: World, a: seq<Value>, b: seq<Value>, p: Value, q: Value) {
    AllAlike(a, b) && Alike(p, q) ==> w.placed(a, p) == w.placed(b, q)
  }

  ghost predicate KernelRespects(w: World, k: nat, kernel: string, a: seq<Value>, b: seq<Value>) {
    AllAlike(a, b) ==> Same(w.kernel(k, kernel, a), w.kernel(k, kernel, b))
  }

  ghost predicate OutsideRespects(w: World, k: nat, declared: string, a: seq<Value>, b: seq<Value>) {
    AllAlike(a, b) ==> Same(w.outside(k, declared, a), w.outside(k, declared, b))
  }

  ghost predicate HostRespects(w: World, k: nat, id: int, declared: string, a: seq<Value>, b: seq<Value>) {
    AllAlike(a, b) ==> Same(w.hosted(k, id, declared, a), w.hosted(k, id, declared, b))
  }

  /** Nothing outside the document tells apart values alike: it calls a closure and never looks at
      what one carries. */
  ghost predicate Respects(w: World) {
    && (forall declared, a, b :: VerdictRespects(w, declared, a, b))
    && (forall a, b, p, q :: PlacedRespects(w, a, b, p, q))
    && (forall k, kernel, a, b :: KernelRespects(w, k, kernel, a, b))
    && (forall k, declared, a, b :: OutsideRespects(w, k, declared, a, b))
    && (forall k, id, declared, a, b :: HostRespects(w, k, id, declared, a, b))
  }

  // ----- running alike -----

  /** Closure conversion preserves meaning: with frames agreeing on what a node reaches, running it by
      plan ends as running it lexically does, with as many steps left and a value alike. */
  lemma {:induction false} Converts(w: World, k: nat, node: Node, f: Frame, g: Frame, handed: bool)
    requires Respects(w) && AgreeOn(f, g, Free(node), handed) && (ReachesEnvironment(node, f.required) ==> handed)
    ensures Same(Eval(Lexical, w, k, node, f), Eval(ByPlan, w, k, node, g))
    decreases k, 0, node, 3
  {
    match node
    case Literal(_, _) =>
    case UnitNode(_, _) =>
    case Unreachable(_) =>
    case AbsentNode(_) =>
    case Read(_, _) =>
    case Construct(_, _, _) => ConvertsBuilt(w, k, node, f, g, handed);
    case Attempt(_, _, _, _, _, _, _) => ConvertsAttempt(w, k, node, f, g, handed);
    case FieldOf(_, _, _) => ConvertsOne(w, k, node, f, g, handed);
    case Let(_, _, _, _, _) => ConvertsLet(w, k, node, f, g, handed);
    case If(_, _, _, _) => ConvertsIf(w, k, node, f, g, handed);
    case Match(_, _, _) => ConvertsMatch(w, k, node, f, g, handed);
    case PresentNode(_, _) => ConvertsOne(w, k, node, f, g, handed);
    case TupleNode(_, _) => ConvertsSeveral(w, k, node, f, g, handed);
    case Member(_, _, _) => ConvertsOne(w, k, node, f, g, handed);
    case ListNode(_, _) => ConvertsSeveral(w, k, node, f, g, handed);
    case Call(_, _, _) => ConvertsCall(w, k, node, f, g, handed);
    case Walk(_, _, _, _, _, _, _, _, _, _) => ConvertsWalk(w, k, node, f, g, handed);
    case Block(_, _, _, _) => ConvertsBlock(node, f, g, handed);
    case Apply(_, _, _) => ConvertsApply(w, k, node, f, g, handed);
    case Widen(_, _) => ConvertsOne(w, k, node, f, g, handed);
  }

  /** A node made of one other. */
  lemma {:induction false} ConvertsOne(w: World, k: nat, node: Node, f: Frame, g: Frame, handed: bool)
    requires Respects(w) && (node.FieldOf? || node.PresentNode? || node.Member? || node.Widen?)
    requires AgreeOn(f, g, Free(node), handed) && (ReachesEnvironment(node, f.required) ==> handed)
    ensures Same(Eval(Lexical, w, k, node, f), Eval(ByPlan, w, k, node, g))
    decreases k, 0, node, 2
  {
    match node
    case FieldOf(target, _, _) => Converts(w, k, target, f, g, handed);
    case PresentNode(value, _) => Converts(w, k, value, f, g, handed);
    case Member(tuple, _, _) => Converts(w, k, tuple, f, g, handed);
    case Widen(value, _) => Converts(w, k, value, f, g, handed);
  }

  lemma {:induction false} ConvertsSeveral(w: World, k: nat, node: Node, f: Frame, g: Frame, handed: bool)
    requires Respects(w) && (node.TupleNode? || node.ListNode?)
    requires AgreeOn(f, g, Free(node), handed) && (ReachesEnvironment(node, f.required) ==> handed)
    ensures Same(Eval(Lexical, w, k, node, f), Eval(ByPlan, w, k, node, g))
    decreases k, 0, node, 2
  {
    assert AnyReaches(node.nodes, f.required) ==> handed;
    ConvertsAll(w, k, node.nodes, f, g, handed);
  }

  lemma {:induction false} ConvertsAll(w: World, k: nat, nodes: seq<Node>, f: Frame, g: Frame, handed: bool)
    requires Respects(w) && AgreeOn(f, g, FreeAll(nodes), handed)
    requires forall i :: 0 <= i < |nodes| && ReachesEnvironment(nodes[i], f.required) ==> handed
    ensures SameAll(EvalAll(Lexical, w, k, nodes, f), EvalAll(ByPlan, w, k, nodes, g))
    decreases k, 0, nodes, 2
  {
    if nodes != [] {
      Converts(w, k, nodes[0], f, g, handed);
      var o := Eval(Lexical, w, k, nodes[0], f);
      if o.Answered? {
        ConvertsAll(w, o.left, nodes[1..], f, g, handed);
        SameTogether(o.value, Eval(ByPlan, w, k, nodes[0], g).value,
                     EvalAll(Lexical, w, o.left, nodes[1..], f), EvalAll(ByPlan, w, o.left, nodes[1..], g));
      }
    }
  }

  lemma SameTogether(a: Value, b: Value, rest: Outcomes, other: Outcomes)
    requires Alike(a, b) && SameAll(rest, other)
    ensures SameAll(if rest.Cut? then rest else AllAnswered([a] + rest.values, rest.left),
                    if other.Cut? then other else AllAnswered([b] + other.values, other.left))
  {
  }

  lemma {:induction false} ConvertsArguments(w: World, k: nat, reaches: Reaches, nodes: seq<Node>, f: Frame, g: Frame, handed: bool)
    requires Respects(w) && AgreeOn(f, g, FreeArguments(reaches, nodes), handed)
    requires forall i :: 0 <= i < |nodes| && !NeverApplied(reaches, nodes[i]) && ReachesEnvironment(nodes[i], f.required) ==> handed
    ensures SameAll(EvalArguments(Lexical, w, k, reaches, nodes, f), EvalArguments(ByPlan, w, k, reaches, nodes, g))
    decreases k, 0, nodes, 2
  {
    if nodes != [] {
      ConvertsArgument(w, k, reaches, nodes[0], f, g, handed);
      var o, u := EvalArgument(Lexical, w, k, reaches, nodes[0], f), EvalArgument(ByPlan, w, k, reaches, nodes[0], g);
      var rest := nodes[1..];
      assert forall i :: 0 <= i < |rest| ==> rest[i] == nodes[i + 1];
      if o.Answered? {
        ConvertsArguments(w, o.left, reaches, rest, f, g, handed);
        SameTogether(o.value, u.value, EvalArguments(Lexical, w, o.left, reaches, rest, f), EvalArguments(ByPlan, w, o.left, reaches, rest, g));
      }
    }
  }

  lemma {:induction false} ConvertsArgument(w: World, k: nat, reaches: Reaches, node: Node, f: Frame, g: Frame, handed: bool)
    requires Respects(w)
    requires NeverApplied(reaches, node) || AgreeOn(f, g, Free(node), handed)
    requires !NeverApplied(reaches, node) && ReachesEnvironment(node, f.required) ==> handed
    ensures Same(EvalArgument(Lexical, w, k, reaches, node, f), EvalArgument(ByPlan, w, k, reaches, node, g))
    decreases k, 0, node, 4
  {
    if !NeverApplied(reaches, node) { Converts(w, k, node, f, g, handed); }
  }

  lemma {:induction false} ConvertsBuilt(w: World, k: nat, node: Node, f: Frame, g: Frame, handed: bool)
    requires Respects(w) && node.Construct?
    requires AgreeOn(f, g, Free(node), handed) && (ReachesEnvironment(node, f.required) ==> handed)
    ensures Same(Eval(Lexical, w, k, node, f), Eval(ByPlan, w, k, node, g))
    decreases k, 0, node, 2
  {
    assert AnyReaches(node.values, f.required) ==> handed;
    ConvertsAll(w, k, node.values, f, g, handed);
    var a, b := EvalAll(Lexical, w, k, node.values, f), EvalAll(ByPlan, w, k, node.values, g);
    if a.AllAnswered? { assert VerdictRespects(w, node.declared, a.values, b.values); }
  }

  lemma AgreeBind(f: Frame, g: Frame, names: set<nat>, handed: bool, bound: set<nat>, p: map<nat, Value>, q: map<nat, Value>)
    requires AgreeOn(f, g, names - bound, handed)
    requires p.Keys == q.Keys == bound && forall x :: x in p ==> Alike(p[x], q[x])
    ensures AgreeOn(Bind(f, p), Bind(g, q), names, handed)
  {
  }

  /** What stands under a name for values alike. */
  lemma {:induction false} ConvertsUnder(w: World, k: nat, parent: Node, body: Node, binding: nat, a: Value, b: Value,
                                         f: Frame, g: Frame, handed: bool)
    requires Respects(w) && Alike(a, b) && body < parent
    requires AgreeOn(f, g, Free(body) - {binding}, handed) && (ReachesEnvironment(body, f.required) ==> handed)
    ensures Same(Eval(Lexical, w, k, body, Bind(f, map[binding := a])), Eval(ByPlan, w, k, body, Bind(g, map[binding := b])))
    decreases k, 0, parent, 1
  {
    var p, q := map[binding := a], map[binding := b];
    AgreeBind(f, g, Free(body), handed, {binding}, p, q);
    Converts(w, k, body, Bind(f, p), Bind(g, q), handed);
  }

  lemma {:induction false} ConvertsAttempt(w: World, k: nat, node: Node, f: Frame, g: Frame, handed: bool)
    requires Respects(w) && node.Attempt?
    requires AgreeOn(f, g, Free(node), handed) && (ReachesEnvironment(node, f.required) ==> handed)
    ensures Same(Eval(Lexical, w, k, node, f), Eval(ByPlan, w, k, node, g))
    decreases k, 0, node, 2
  {
    assert AnyReaches(node.values, f.required) ==> handed;
    ConvertsAll(w, k, node.values, f, g, handed);
    var a, b := EvalAll(Lexical, w, k, node.values, f), EvalAll(ByPlan, w, k, node.values, g);
    if a.AllAnswered? {
      assert VerdictRespects(w, node.declared, a.values, b.values);
      var verdict := w.verdict(node.declared, a.values);
      if verdict.Holds? {
        ConvertsUnder(w, a.left, node, node.built, node.binding, Record(node.declared, a.values), Record(node.declared, b.values),
                      f, g, handed);
      } else if verdict.Breaks? && node.declared in w.declared {
        var at := DepartureFor(ClausesOf(w.declared[node.declared]), node.departures, verdict.clause);
        if at.Some? {
          FreeOfDeparture(node.departures, at.value);
          assert node.departures[at.value].body < node.departures[at.value];
          Converts(w, a.left, node.departures[at.value].body, f, g, handed);
        }
      }
    }
  }

  lemma {:induction false} FreeOfDeparture(departures: seq<Departure>, i: nat)
    requires i < |departures|
    ensures Free(departures[i].body) <= FreeDepartures(departures)
  {
    if i > 0 { FreeOfDeparture(departures[1..], i - 1); }
  }

  lemma {:induction false} ConvertsLet(w: World, k: nat, node: Node, f: Frame, g: Frame, handed: bool)
    requires Respects(w) && node.Let?
    requires AgreeOn(f, g, Free(node), handed) && (ReachesEnvironment(node, f.required) ==> handed)
    ensures Same(Eval(Lexical, w, k, node, f), Eval(ByPlan, w, k, node, g))
    decreases k, 0, node, 2
  {
    Converts(w, k, node.value, f, g, handed);
    var a, b := Eval(Lexical, w, k, node.value, f), Eval(ByPlan, w, k, node.value, g);
    if a.Answered? { ConvertsUnder(w, a.left, node, node.body, node.binding, a.value, b.value, f, g, handed); }
  }

  lemma {:induction false} ConvertsIf(w: World, k: nat, node: Node, f: Frame, g: Frame, handed: bool)
    requires Respects(w) && node.If?
    requires AgreeOn(f, g, Free(node), handed) && (ReachesEnvironment(node, f.required) ==> handed)
    ensures Same(Eval(Lexical, w, k, node, f), Eval(ByPlan, w, k, node, g))
    decreases k, 0, node, 2
  {
    Converts(w, k, node.cond, f, g, handed);
    var a := Eval(Lexical, w, k, node.cond, f);
    if a.Answered? {
      Converts(w, a.left, node.yes, f, g, handed);
      Converts(w, a.left, node.no, f, g, handed);
    }
  }

  lemma {:induction false} ConvertsMatch(w: World, k: nat, node: Node, f: Frame, g: Frame, handed: bool)
    requires Respects(w) && node.Match?
    requires AgreeOn(f, g, Free(node), handed) && (ReachesEnvironment(node, f.required) ==> handed)
    ensures Same(Eval(Lexical, w, k, node, f), Eval(ByPlan, w, k, node, g))
    decreases k, 0, node, 2
  {
    Converts(w, k, node.subject, f, g, handed);
    var a, b := Eval(Lexical, w, k, node.subject, f), Eval(ByPlan, w, k, node.subject, g);
    if a.Answered? { ConvertsArms(w, a.left, a.value, b.value, node.subject.ty, node.arms, f, g, handed); }
  }

  /** Values alike are tested alike. */
  lemma {:induction false} TestsAlike(a: Value, b: Value, selects: seq<Selects>)
    requires Alike(a, b)
    ensures Tests(a, selects) == Tests(b, selects)
  {
    if selects != [] { TestsAlike(a, b, selects[1..]); }
  }

  lemma {:induction false} ConvertsArms(w: World, k: nat, a: Value, b: Value, subject: Ty, arms: seq<Arm>, f: Frame, g: Frame, handed: bool)
    requires Respects(w) && Alike(a, b) && AgreeOn(f, g, FreeArms(arms, subject), handed)
    requires forall i :: 0 <= i < |arms| && !NeverEntered(arms[i], subject) && ReachesEnvironment(arms[i].body, f.required) ==> handed
    ensures Same(EvalArms(Lexical, w, k, a, subject, arms, f), EvalArms(ByPlan, w, k, b, subject, arms, g))
    decreases k, 0, arms, 2
  {
    if arms != [] {
      ConvertsArms(w, k, a, b, subject, arms[1..], f, g, handed);
      TestsAlike(a, b, arms[0].selects);
      if !NeverEntered(arms[0], subject) { ConvertsArm(w, k, a, b, arms[0], f, g, handed); }
    }
  }

  lemma {:induction false} ConvertsArm(w: World, k: nat, a: Value, b: Value, arm: Arm, f: Frame, g: Frame, handed: bool)
    requires Respects(w) && Alike(a, b)
    requires AgreeOn(f, g, Free(arm.body) - ArmName(arm.binding), handed) && (ReachesEnvironment(arm.body, f.required) ==> handed)
    ensures Named(a, arm.binding).Some? == Named(b, arm.binding).Some?
    ensures Named(a, arm.binding).Some? ==>
      Same(Eval(Lexical, w, k, arm.body, Bind(f, Named(a, arm.binding).value)), Eval(ByPlan, w, k, arm.body, Bind(g, Named(b, arm.binding).value)))
    decreases k, 0, arm, 2
  {
    if Named(a, arm.binding).Some? {
      var p, q := Named(a, arm.binding).value, Named(b, arm.binding).value;
      AgreeBind(f, g, Free(arm.body), handed, ArmName(arm.binding), p, q);
      Converts(w, k, arm.body, Bind(f, p), Bind(g, q), handed);
    }
  }

  // ----- function values -----

  /** A closure carrying what its plan says is alike one carrying its whole scope. */
  lemma ConvertsBlock(node: Node, f: Frame, g: Frame, handed: bool)
    requires node.Block? && AgreeOn(f, g, Free(node), handed) && (ReachesEnvironment(node, f.required) ==> handed)
    ensures Alike(Made(Lexical, node, f), Made(ByPlan, node, g))
  {
    if !(node.ty.Fn? && NeverRuns(node.ty.takes)) {
      PlanCarriesTheFree(node, g.required);
      var kept := KeptByPlan(node, g);
      assert ByPlan.kept(node, g) == kept;
      assert forall x :: x in Free(node) ==> (x in g.bindings <==> x in kept.bindings) && (x in g.bindings ==> kept.bindings[x] == g.bindings[x]);
    }
  }

  lemma {:induction false} ConvertsApply(w: World, k: nat, node: Node, f: Frame, g: Frame, handed: bool)
    requires Respects(w) && node.Apply?
    requires AgreeOn(f, g, Free(node), handed) && (ReachesEnvironment(node, f.required) ==> handed)
    ensures Same(Eval(Lexical, w, k, node, f), Eval(ByPlan, w, k, node, g))
    decreases k, 0, node, 2
  {
    Converts(w, k, node.applied, f, g, handed);
    var a, b := Eval(Lexical, w, k, node.applied, f), Eval(ByPlan, w, k, node.applied, g);
    if a.Answered? {
      assert AnyReaches(node.arguments, f.required) ==> handed;
      ConvertsAll(w, a.left, node.arguments, f, g, handed);
      var p, q := EvalAll(Lexical, w, a.left, node.arguments, f), EvalAll(ByPlan, w, a.left, node.arguments, g);
      if p.AllAnswered? && p.left > 0 { ConvertsApplied(w, p.left - 1, a.value, b.value, p.values, q.values); }
    }
  }

  lemma {:induction false} HandingKeys(parameters: seq<nat>, a: seq<Value>)
    requires |parameters| == |a|
    ensures Handing(parameters, a).Keys == NumbersIn(parameters)
    decreases |parameters|
  {
    if parameters != [] {
      var last := |parameters| - 1;
      HandingKeys(parameters[..last], a[..last]);
      assert parameters == parameters[..last] + [parameters[last]];
    }
  }

  lemma {:induction false} HandingAlike(parameters: seq<nat>, a: seq<Value>, b: seq<Value>)
    requires AllAlike(a, b) && |parameters| == |a|
    ensures Handing(parameters, a).Keys == Handing(parameters, b).Keys == NumbersIn(parameters)
    ensures forall x :: x in Handing(parameters, a) ==> Alike(Handing(parameters, a)[x], Handing(parameters, b)[x])
    decreases |parameters|
  {
    HandingKeys(parameters, a);
    HandingKeys(parameters, b);
    if parameters != [] {
      var last := |parameters| - 1;
      HandingAlike(parameters[..last], a[..last], b[..last]);
      assert Alike(a[last], b[last]);
    }
  }

  /** Functions alike, handed values alike, come to the same. */
  lemma {:induction false} ConvertsApplied(w: World, k: nat, a: Value, b: Value, p: seq<Value>, q: seq<Value>)
    requires Respects(w) && Alike(a, b) && AllAlike(p, q)
    ensures Same(Applied(Lexical, w, k, a, p), Applied(ByPlan, w, k, b, q))
    decreases k, 1
  {
    if a.Closure? && |a.parameters| == |p| {
      HandingAlike(a.parameters, p, q);
      var handed := ReachesEnvironment(a.body, a.frame.required);
      AgreeBind(a.frame, b.frame, Free(a.body), handed, NumbersIn(a.parameters), Handing(a.parameters, p), Handing(a.parameters, q));
      Converts(w, k, a.body, Bind(a.frame, Handing(a.parameters, p)), Bind(b.frame, Handing(b.parameters, q)), handed);
    }
  }

  // ----- calls -----

  lemma {:induction false} ConvertsCall(w: World, k: nat, node: Node, f: Frame, g: Frame, handed: bool)
    requires Respects(w) && node.Call?
    requires AgreeOn(f, g, Free(node), handed) && (ReachesEnvironment(node, f.required) ==> handed)
    ensures Same(Eval(Lexical, w, k, node, f), Eval(ByPlan, w, k, node, g))
    decreases k, 0, node, 2
  {
    ConvertsArguments(w, k, node.reaches, node.arguments, f, g, handed);
    var a := EvalArguments(Lexical, w, k, node.reaches, node.arguments, f);
    var b := EvalArguments(ByPlan, w, k, node.reaches, node.arguments, g);
    if a.AllAnswered? { ConvertsReached(w, a.left, node, a.values, b.values, f, g, handed); }
  }

  lemma {:induction false} ConvertsReached(w: World, k: nat, node: Node, a: seq<Value>, b: seq<Value>, f: Frame, g: Frame, handed: bool)
    requires Respects(w) && node.Call? && AllAlike(a, b) && AgreeOn(f, g, {}, handed)
    requires node.reaches.Behavior? && node.reaches.declared in f.required ==> handed
    ensures node.reaches.GrowList? ==> Same(Grown(a, k), Grown(b, k))
    ensures node.reaches.PutMap? ==> Same(Put(w, a, k), Put(w, b, k))
    ensures node.reaches.Kernel? ==> Same(Within(w.kernel(k, node.reaches.kernel, a), k), Within(w.kernel(k, node.reaches.kernel, b), k))
    ensures node.reaches.Helper? && k > 0 ==> Same(RunHelper(Lexical, w, k - 1, node.reaches.reached, a), RunHelper(ByPlan, w, k - 1, node.reaches.reached, b))
    ensures node.reaches.Behavior? && k > 0 ==>
      Same(RunCall(Lexical, w, k - 1, node.reaches.declared, a, f), RunCall(ByPlan, w, k - 1, node.reaches.declared, b, g))
    decreases k, 0, node, 0
  {
    match node.reaches
    case GrowList =>
    case PutMap => ConvertsPut(w, k, a, b);
    case Kernel(kernel, _) => assert KernelRespects(w, k, kernel, a, b);
    case Helper(reached) => if k > 0 { ConvertsHelper(w, k - 1, reached, a, b); }
    case Behavior(declared) => if k > 0 { ConvertsBehaviorCall(w, k - 1, declared, a, b, f, g, handed); }
  }

  lemma ConvertsPut(w: World, k: nat, a: seq<Value>, b: seq<Value>)
    requires Respects(w) && AllAlike(a, b)
    ensures Same(Put(w, a, k), Put(w, b, k))
  {
    if |a| == 3 && a[0].MapOf? && |a[0].keys| == |a[0].values| {
      assert PlacedRespects(w, a[0].keys, b[0].keys, a[1], b[1]);
    }
  }

  lemma AgreeInBody(a: seq<Value>, b: seq<Value>, required: seq<string>, environment: Environment, names: set<nat>)
    requires AllAlike(a, b)
    ensures AgreeOn(Frame(Positional(a), required, environment), Frame(Positional(b), required, environment), names, true)
  {
  }

  lemma {:induction false} ConvertsHelper(w: World, k: nat, reached: string, a: seq<Value>, b: seq<Value>)
    requires Respects(w) && AllAlike(a, b)
    ensures Same(RunHelper(Lexical, w, k, reached, a), RunHelper(ByPlan, w, k, reached, b))
    decreases k, 1
  {
    if reached in w.helpers {
      var body := w.helpers[reached].body;
      AgreeInBody(a, b, [], Unhanded, Free(body));
      Converts(w, k, body, Frame(Positional(a), [], Unhanded), Frame(Positional(b), [], Unhanded), true);
    }
  }

  lemma {:induction false} ConvertsBehaviorCall(w: World, k: nat, declared: string, a: seq<Value>, b: seq<Value>,
                                                f: Frame, g: Frame, handed: bool)
    requires Respects(w) && AllAlike(a, b) && AgreeOn(f, g, {}, handed) && (declared in f.required ==> handed)
    ensures Same(RunCall(Lexical, w, k, declared, a, f), RunCall(ByPlan, w, k, declared, b, g))
    decreases k, 4
  {
    var at := PlaceOf(f.required, declared);
    if at.None? {
      ConvertsBehavior(w, k, declared, [], a, b);
    } else if f.environment.Handed? && at.value < |f.environment.capabilities| {
      ConvertsThrough(w, k, f.environment.capabilities[at.value], declared, a, b);
    }
  }

  lemma {:induction false} ConvertsThrough(w: World, k: nat, through: Capability, declared: string, a: seq<Value>, b: seq<Value>)
    requires Respects(w) && AllAlike(a, b)
    ensures Same(RunThrough(Lexical, w, k, through, declared, a), RunThrough(ByPlan, w, k, through, declared, b))
    decreases k, 3
  {
    match through
    case Hosted(id) => assert HostRespects(w, k, id, declared, a, b);
    case Bound(behavior, stands) => ConvertsBehavior(w, k, behavior, stands, a, b);
  }

  /** A whole behavior, whatever it runs in turn, means the same run by plan. */
  lemma {:induction false} ConvertsBehavior(w: World, k: nat, declared: string, capabilities: seq<Capability>, a: seq<Value>, b: seq<Value>)
    requires Respects(w) && AllAlike(a, b)
    ensures Same(RunBehavior(Lexical, w, k, declared, capabilities, a), RunBehavior(ByPlan, w, k, declared, capabilities, b))
    decreases k, 2
  {
    assert OutsideRespects(w, k, declared, a, b);
    if k > 0 && declared in w.definitions {
      ConvertsDefinition(w, k - 1, w.definitions[declared], capabilities, a, b);
    }
  }

  lemma {:induction false} ConvertsDefinition(w: World, k: nat, definition: Definition, capabilities: seq<Capability>, a: seq<Value>, b: seq<Value>)
    requires Respects(w) && AllAlike(a, b)
    ensures Same(RunDefinition(Lexical, w, k, definition, capabilities, a), RunDefinition(ByPlan, w, k, definition, capabilities, b))
    decreases k, 8
  {
    match definition
    case BodyOf(requirements, body) =>
      AgreeInBody(a, b, requirements, Handed(capabilities), Free(body));
      Converts(w, k, body, Frame(Positional(a), requirements, Handed(capabilities)),
               Frame(Positional(b), requirements, Handed(capabilities)), true);
    case StagesOf(requirements, stages) => ConvertsComposition(w, k, stages, requirements, capabilities, a, b);
  }

  lemma {:induction false} ConvertsComposition(w: World, k: nat, stages: seq<Stage>, requirements: seq<string>, capabilities: seq<Capability>,
                                               a: seq<Value>, b: seq<Value>)
    requires Respects(w) && AllAlike(a, b)
    ensures Same(RunComposition(Lexical, w, k, stages, requirements, capabilities, a),
                 RunComposition(ByPlan, w, k, stages, requirements, capabilities, b))
    decreases k, 7
  {
    if stages != [] {
      ConvertsStage(w, k, stages[0].behavior, requirements, capabilities, a, b);
      var o := RunStage(Lexical, w, k, stages[0].behavior, requirements, capabilities, a);
      var p := RunStage(ByPlan, w, k, stages[0].behavior, requirements, capabilities, b);
      if o.Answered? { ConvertsStages(w, o.left, stages[1..], requirements, capabilities, o.value, p.value); }
    }
  }

  lemma {:induction false} ConvertsStage(w: World, k: nat, behavior: string, requirements: seq<string>, capabilities: seq<Capability>,
                                         a: seq<Value>, b: seq<Value>)
    requires Respects(w) && AllAlike(a, b)
    ensures Same(RunStage(Lexical, w, k, behavior, requirements, capabilities, a), RunStage(ByPlan, w, k, behavior, requirements, capabilities, b))
    decreases k, 5
  {
    if behavior in w.targets {
      if w.targets[behavior].kind.Injected? {
        var at := PlaceOf(requirements, behavior);
        if at.Some? && at.value < |capabilities| { ConvertsThrough(w, k, capabilities[at.value], behavior, a, b); }
      } else {
        var chosen := Chosen(requirements, capabilities, w.targets[behavior].requirements);
        if chosen.Some? { ConvertsBehavior(w, k, behavior, chosen.value, a, b); }
      }
    }
  }

  lemma {:induction false} ConvertsStages(w: World, k: nat, stages: seq<Stage>, requirements: seq<string>, capabilities: seq<Capability>,
                                          a: Value, b: Value)
    requires Respects(w) && Alike(a, b)
    ensures Same(RunStages(Lexical, w, k, stages, requirements, capabilities, a), RunStages(ByPlan, w, k, stages, requirements, capabilities, b))
    decreases k, 6, |stages|
  {
    if stages != [] {
      assert Leaves(w, stages[0], a) == Leaves(w, stages[0], b);
      ConvertsStage(w, k, stages[0].behavior, requirements, capabilities, [a], [b]);
      var o := RunStage(Lexical, w, k, stages[0].behavior, requirements, capabilities, [a]);
      var p := RunStage(ByPlan, w, k, stages[0].behavior, requirements, capabilities, [b]);
      if o.Answered? { ConvertsStages(w, o.left, stages[1..], requirements, capabilities, o.value, p.value); }
    }
  }

  // ----- walks -----

  ghost predicate SameFramed(a: Framed, b: Framed, required: seq<string>, names: set<nat>, handed: bool) {
    if a.InFrame? then
      b.InFrame? && a.left == b.left && a.frame.required == required && AgreeOn(a.frame, b.frame, names, handed)
    else a == b
  }

  /** What is bound around a step, and then frames agreeing on what the step reaches and on anything
      both agreed on before. */
  lemma {:induction false} ConvertsAround(w: World, k: nat, around: seq<Around>, step: set<nat>, rest: set<nat>,
                                          f: Frame, g: Frame, handed: bool)
    requires Respects(w) && AgreeOn(f, g, FreeAround(around, step) + rest, handed)
    requires forall i :: 0 <= i < |around| && ReachesEnvironment(around[i].value, f.required) ==> handed
    ensures SameFramed(EvalAround(Lexical, w, k, around, f), EvalAround(ByPlan, w, k, around, g), f.required, step + rest, handed)
    decreases k, 0, around, 2
  {
    if around != [] {
      var first := around[0];
      assert first.value < first;
      Converts(w, k, first.value, f, g, handed);
      var a, b := Eval(Lexical, w, k, first.value, f), Eval(ByPlan, w, k, first.value, g);
      if a.Answered? {
        var p, q := map[first.binding := a.value], map[first.binding := b.value];
        AgreeBind(f, g, FreeAround(around[1..], step) + rest, handed, {first.binding}, p, q);
        ConvertsAround(w, a.left, around[1..], step, rest, Bind(f, p), Bind(g, q), handed);
      }
    }
  }

  lemma {:induction false} ConvertsRest(w: World, k: nat, node: Node, f: Frame, g: Frame, handed: bool)
    requires Respects(w) && node.Walk?
    requires AgreeOn(f, g, Free(node.walked) + Free(node.from), handed) && (ReachesEnvironment(node, f.required) ==> handed)
    ensures Same(Eval(Lexical, w, k, node.walked, f), Eval(ByPlan, w, k, node.walked, g))
    ensures var a := Eval(Lexical, w, k, node.walked, f);
            a.Answered? ==> Same(Eval(Lexical, w, a.left, node.from, f), Eval(ByPlan, w, a.left, node.from, g))
    decreases k, 0, node, 0
  {
    Converts(w, k, node.walked, f, g, handed);
    var a := Eval(Lexical, w, k, node.walked, f);
    if a.Answered? { Converts(w, a.left, node.from, f, g, handed); }
  }

  lemma {:induction false} ConvertsWalk(w: World, k: nat, node: Node, f: Frame, g: Frame, handed: bool)
    requires Respects(w) && node.Walk?
    requires AgreeOn(f, g, Free(node), handed) && (ReachesEnvironment(node, f.required) ==> handed)
    ensures Same(Eval(Lexical, w, k, node, f), Eval(ByPlan, w, k, node, g))
    decreases k, 0, node, 2
  {
    if NeverRuns(node.takes) {
      ConvertsRest(w, k, node, f, g, handed);
    } else {
      var step, rest := Free(node.body) - {node.grown, node.each}, Free(node.walked) + Free(node.from);
      ConvertsAround(w, k, node.around, step, rest, f, g, handed);
      var a, b := EvalAround(Lexical, w, k, node.around, f), EvalAround(ByPlan, w, k, node.around, g);
      if a.InFrame? { ConvertsFramed(w, a.left, node, a.frame, b.frame, handed); }
    }
  }

  /** A walk once what is bound around its step is bound. */
  lemma {:induction false} ConvertsFramed(w: World, k: nat, node: Node, f: Frame, g: Frame, handed: bool)
    requires Respects(w) && node.Walk? && !NeverRuns(node.takes)
    requires AgreeOn(f, g, (Free(node.body) - {node.grown, node.each}) + (Free(node.walked) + Free(node.from)), handed)
    requires ReachesEnvironment(node, f.required) ==> handed
    ensures var a, b := Eval(Lexical, w, k, node.walked, f), Eval(ByPlan, w, k, node.walked, g);
            Same(a, b) && (a.Answered? ==>
              var at, from := Eval(Lexical, w, a.left, node.from, f), Eval(ByPlan, w, a.left, node.from, g);
              Same(at, from) && (at.Answered? && a.value.Elements? && at.value.ScalarOf? && at.value.scalar.Whole? ==>
                Same(Stepped(Lexical, w, at.left, node.builds, node.body, f, node.grown, node.each, Empty(node.builds), Rest(a.value.elements, at.value.scalar.n)),
                     Stepped(ByPlan, w, at.left, node.builds, node.body, g, node.grown, node.each, Empty(node.builds), Rest(b.value.elements, at.value.scalar.n)))))
    decreases k, 0, node, 1
  {
    ConvertsRest(w, k, node, f, g, handed);
    var a, b := Eval(Lexical, w, k, node.walked, f), Eval(ByPlan, w, k, node.walked, g);
    if a.Answered? {
      var at := Eval(Lexical, w, a.left, node.from, f);
      if at.Answered? && a.value.Elements? && at.value.ScalarOf? && at.value.scalar.Whole? {
        var p, q := Rest(a.value.elements, at.value.scalar.n), Rest(b.value.elements, at.value.scalar.n);
        ConvertsStepped(w, at.left, node, f, g, Empty(node.builds), Empty(node.builds), p, q, handed);
      }
    }
  }

  lemma AgreeInStep(f: Frame, g: Frame, names: set<nat>, handed: bool, grown: nat, each: nat, a: Value, b: Value, p: Value, q: Value)
    requires AgreeOn(f, g, names - {grown, each}, handed) && Alike(a, b) && Alike(p, q)
    ensures AgreeOn(Bind(f, map[grown := a, each := p]), Bind(g, map[grown := b, each := q]), names, handed)
  {
    var x, y := map[grown := a, each := p], map[grown := b, each := q];
    assert x.Keys == {grown, each} && y.Keys == {grown, each};
    assert x[each] == p && y[each] == q && (grown != each ==> x[grown] == a && y[grown] == b);
    AgreeBind(f, g, names, handed, {grown, each}, x, y);
  }

  lemma AlikeBuilt(builds: Builds, a: Value, b: Value)
    requires Alike(a, b)
    ensures IsBuiltAs(builds, a) <==> IsBuiltAs(builds, b)
  {
  }

  /** One step, handed alike what was built so far and an element. */
  lemma {:induction false} ConvertsStep(w: World, k: nat, node: Node, f: Frame, g: Frame, a: Value, b: Value,
                                        p: Value, q: Value, handed: bool)
    requires Respects(w) && node.Walk? && Alike(a, b) && Alike(p, q)
    requires AgreeOn(f, g, Free(node.body) - {node.grown, node.each}, handed) && (ReachesEnvironment(node.body, f.required) ==> handed)
    ensures Same(Eval(Lexical, w, k, node.body, Bind(f, map[node.grown := a, node.each := p])),
                 Eval(ByPlan, w, k, node.body, Bind(g, map[node.grown := b, node.each := q])))
    decreases k, 0, node.body, 4
  {
    AgreeInStep(f, g, Free(node.body), handed, node.grown, node.each, a, b, p, q);
    Converts(w, k, node.body, Bind(f, map[node.grown := a, node.each := p]), Bind(g, map[node.grown := b, node.each := q]), handed);
  }

  lemma {:induction false} ConvertsStepped(w: World, k: nat, node: Node, f: Frame, g: Frame, a: Value, b: Value,
                                           p: seq<Value>, q: seq<Value>, handed: bool)
    requires Respects(w) && node.Walk? && Alike(a, b) && AllAlike(p, q)
    requires AgreeOn(f, g, Free(node.body) - {node.grown, node.each}, handed) && (ReachesEnvironment(node.body, f.required) ==> handed)
    ensures Same(Stepped(Lexical, w, k, node.builds, node.body, f, node.grown, node.each, a, p),
                 Stepped(ByPlan, w, k, node.builds, node.body, g, node.grown, node.each, b, q))
    decreases k, 0, node.body, 5 + |p|
  {
    if p != [] {
      ConvertsStep(w, k, node, f, g, a, b, p[0], q[0], handed);
      var o := Eval(Lexical, w, k, node.body, Bind(f, map[node.grown := a, node.each := p[0]]));
      var u := Eval(ByPlan, w, k, node.body, Bind(g, map[node.grown := b, node.each := q[0]]));
      if o.Answered? { AlikeBuilt(node.builds, o.value, u.value); }
      if o.Answered? && IsBuiltAs(node.builds, o.value) {
        ConvertsStepped(w, o.left, node, f, g, o.value, u.value, p[1..], q[1..], handed);
      }
    }
  }
}
