/** Acceptance of a document as predicates with no state (native/crates/compiler/src/coherent.rs):
    `Accepts` is a typing judgement by recursion on the node, its scope a map from numbers to types, and
    the rest is over definitions and targets.

    Less is asked here than the source asks (not that a type's names resolve, nor which reasons a node
    names for ending), so the documents it accepts are among those accepted here. */
module Coherence {
  import opened Options
  import opened Transport
  import opened Declarations
  import opened Growing
  import opened Machine

  type Scope = map<nat, Ty>

  const TRUTH: Ty := Prim(BoolPrim)

  /** Each number in force at its type after `scope`; none where one is in force already. */
  function Entering(scope: Scope, numbers: seq<nat>, tys: seq<Ty>): Option<Scope>
    requires |numbers| == |tys|
  {
    if numbers == [] then Some(scope)
    else
      var last := |numbers| - 1;
      match Entering(scope, numbers[..last], tys[..last])
      case Some(inner) => if numbers[last] in inner then None else Some(inner[numbers[last] := tys[last]])
      case None => None
  }

  function PositionalTypes(takes: seq<Ty>): Scope {
    map i: nat | i < |takes| :: takes[i]
  }

  predicate TypedAs(nodes: seq<Node>, tys: seq<Ty>) {
    |nodes| == |tys| && forall i :: 0 <= i < |nodes| ==> nodes[i].ty == tys[i]
  }

  function TypesOf(fields: seq<Field>): (r: seq<Ty>)
    ensures |r| == |fields| && forall i :: 0 <= i < |r| ==> r[i] == fields[i].ty
  {
    seq(|fields|, i requires 0 <= i < |fields| => fields[i].ty)
  }

  /** Each test can be made of every value of `subject`. */
  predicate TestsStand(d: Declared, subject: Ty, selects: seq<Selects>) {
    forall i :: 0 <= i < |selects| ==> TestStands(d, subject, selects[i])
  }

  predicate TestStands(d: Declared, subject: Ty, select: Selects) {
    match select
    case Which(atoms) => AreLeaves(d, atoms) && HasCases(d, subject) && Fits(d, Union(atoms), subject)
    case Held => subject.Optional?
    case Absence => subject.Optional?
  }

  /** The type an arm's name is given includes every value of `subject` the tests let by. */
  predicate ArmBinds(d: Declared, subject: Ty, selects: seq<Selects>, binding: ArmBinding) {
    match binding
    case NoName => true
    case Payload(_, readAs) => |selects| == 1 && selects[0].Held? && subject.Optional? && readAs == subject.held
    case Selected(_, readAs) =>
      if |selects| == 1 && selects[0].Held? then false
      else if |selects| == 1 && selects[0].Which? then
        Fits(d, Union(selects[0].atoms), readAs) && Fits(d, readAs, subject)
      else readAs == subject
  }

  function ArmScope(scope: Scope, binding: ArmBinding): Option<Scope> {
    match binding
    case NoName => Some(scope)
    case Selected(number, readAs) => if number in scope then None else Some(scope[number := readAs])
    case Payload(number, readAs) => if number in scope then None else Some(scope[number := readAs])
  }

  /** `declared` is in `required`, or its target needs no capability and is not a host's. */
  predicate ReachedAsConstructed(w: World, required: seq<string>, declared: string) {
    declared in required ||
    (declared in w.targets && !w.targets[declared].kind.Injected? && w.targets[declared].requirements == [])
  }

  predicate CaseLays(d: Declared, c: Case, name: string) {
    c.Declared? && c.key in d && PositionOf(FieldsOf(d[c.key]), name).Some?
  }

  predicate CaseField(d: Declared, c: Case, name: string, ty: Ty) {
    CaseLays(d, c, name) && Fits(d, FieldsOf(d[c.key])[PositionOf(FieldsOf(d[c.key]), name).value].ty, ty)
  }

  predicate CasesField(d: Declared, cases: seq<Case>, name: string, ty: Ty) {
    forall c :: c in cases ==> CaseField(d, c, name, ty)
  }

  predicate FieldStands(d: Declared, of: Ty, name: string, ty: Ty) {
    && of.Ref? && of.named.Declared? && of.named.key in d
    && if d[of.named.key].Sum? then
      CasesField(d, LeavesOf(d, [of.named]), name, ty)
    else
      var at := PositionOf(FieldsOf(d[of.named.key]), name);
      at.Some? && ty == FieldsOf(d[of.named.key])[at.value].ty
  }

  predicate Accepts(w: World, required: seq<string>, scope: Scope, node: Node)
    decreases node
  {
    match node
    case Literal(scalar, ty) => ty == Prim(PrimOf(scalar))
    case Read(binding, ty) => binding in scope && ty == scope[binding]
    case UnitNode(unit, ty) =>
      ty == Ref(unit) && (unit.Declared? ==> unit.key in w.declared && w.declared[unit.key].UnitOf?)
    case Unreachable(_) => true
    case Construct(declared, values, ty) =>
      && ty == Ref(Declared(declared))
      && declared in w.declared && IsBuilt(w.declared[declared])
      && TypedAs(values, TypesOf(FieldsOf(w.declared[declared])))
      && AcceptsAll(w, required, scope, values)
    case Attempt(declared, values, binding, binds, built, departures, ty) =>
      && declared in w.declared && IsBuilt(w.declared[declared])
      && binds == Ref(Declared(declared))
      && ClausesOf(w.declared[declared]) != []
      && DeparturesTaken(ClausesOf(w.declared[declared]), departures)
      && TypedAs(values, TypesOf(FieldsOf(w.declared[declared])))
      && AcceptsAll(w, required, scope, values)
      && binding !in scope && built.ty == ty && Accepts(w, required, scope[binding := binds], built)
      && forall i :: 0 <= i < |departures| ==>
           departures[i].body.ty == ty && Accepts(w, required, scope, departures[i].body)
    case FieldOf(target, name, ty) =>
      Accepts(w, required, scope, target) && FieldStands(w.declared, target.ty, name, ty)
    case Let(binding, binds, value, body, ty) =>
      && Accepts(w, required, scope, value) && value.ty == binds
      && binding !in scope && Accepts(w, required, scope[binding := binds], body) && body.ty == ty
    case If(cond, yes, no, ty) =>
      && Accepts(w, required, scope, cond) && cond.ty == TRUTH
      && Accepts(w, required, scope, yes) && yes.ty == ty
      && Accepts(w, required, scope, no) && no.ty == ty
    case Match(subject, arms, ty) =>
      && Accepts(w, required, scope, subject)
      && forall i :: 0 <= i < |arms| ==> AcceptsArm(w, required, scope, subject.ty, arms[i], ty)
    case PresentNode(value, ty) => Accepts(w, required, scope, value) && ty == Optional(value.ty)
    case AbsentNode(ty) => ty.Optional?
    case TupleNode(nodes, ty) => AcceptsAll(w, required, scope, nodes) && ty.Tuple? && TypedAs(nodes, ty.members)
    case Member(tuple, at, ty) =>
      Accepts(w, required, scope, tuple) && tuple.ty.Tuple? && at < |tuple.ty.members| && ty == tuple.ty.members[at]
    case ListNode(nodes, ty) =>
      && AcceptsAll(w, required, scope, nodes) && ty.List?
      && forall i :: 0 <= i < |nodes| ==> nodes[i].ty == ty.element
    case Call(reaches, arguments, ty) =>
      AcceptsAll(w, required, scope, arguments) && CallStands(w, required, reaches, arguments, ty)
    case Walk(builds, around, grown, each, body, takes, answers, walked, from, ty) =>
      && |takes| == 2 && BuildsA(builds, takes[0]) && ty == answers && BuildsA(builds, ty)
      && Accepts(w, required, scope, walked) && walked.ty == List(takes[1])
      && Accepts(w, required, scope, from) && from.ty == Prim(IntPrim)
      && (match AroundScope(w, required, scope, around)
          case None => false
          case Some(inner) =>
            var stepping := Entering(inner, [grown, each], takes);
            stepping.Some? && Accepts(w, required, stepping.value, body) && body.ty == answers)
    case Block(_, parameters, body, ty) =>
      && ty.Fn? && |parameters| == |ty.takes|
      && (var inner := Entering(scope, parameters, ty.takes);
          inner.Some? && Accepts(w, required, inner.value, body))
      && body.ty == ty.answers
    case Apply(applied, arguments, ty) =>
      && Accepts(w, required, scope, applied) && applied.ty.Fn?
      && AcceptsAll(w, required, scope, arguments)
      && TypedAs(arguments, applied.ty.takes) && ty == applied.ty.answers
    case Widen(value, ty) =>
      !value.Widen? && value.ty != ty && Accepts(w, required, scope, value) && Fits(w.declared, value.ty, ty)
  }

  predicate BuildsA(builds: Builds, ty: Ty) {
    match builds
    case BuildsList => ty.List?
    case BuildsMap => ty.Map?
  }

  predicate AcceptsAll(w: World, required: seq<string>, scope: Scope, nodes: seq<Node>)
    decreases nodes
  {
    forall i :: 0 <= i < |nodes| ==> Accepts(w, required, scope, nodes[i])
  }

  predicate AcceptsArm(w: World, required: seq<string>, scope: Scope, subject: Ty, arm: Arm, ty: Ty)
    decreases arm
  {
    && arm.selects != [] && TestsStand(w.declared, subject, arm.selects)
    && ArmBinds(w.declared, subject, arm.selects, arm.binding)
    && arm.body.ty == ty
    && ArmScope(scope, arm.binding).Some?
    && Accepts(w, required, ArmScope(scope, arm.binding).value, arm.body)
  }

  /** The scope a walk's step is written in, each value bound around it in force after it. */
  function AroundScope(w: World, required: seq<string>, scope: Scope, around: seq<Around>): Option<Scope>
    decreases around
  {
    if around == [] then Some(scope)
    else
      var first := around[0];
      assert first.value < first;
      if Accepts(w, required, scope, first.value) && first.value.ty == first.binds && first.binding !in scope
      then AroundScope(w, required, scope[first.binding := first.binds], around[1..])
      else None
  }

  lemma {:induction false} AroundKeeps(w: World, required: seq<string>, scope: Scope, around: seq<Around>)
    requires AroundScope(w, required, scope, around).Some?
    ensures var inner := AroundScope(w, required, scope, around).value;
            forall x :: x in scope ==> x in inner && inner[x] == scope[x]
    decreases |around|
  {
    if around != [] { AroundKeeps(w, required, scope[around[0].binding := around[0].binds], around[1..]); }
  }

  lemma EnteringTwo(scope: Scope, grown: nat, each: nat, takes: seq<Ty>)
    requires |takes| == 2 && Entering(scope, [grown, each], takes).Some?
    ensures grown !in scope && each !in scope && grown != each
    ensures Entering(scope, [grown, each], takes).value == scope[grown := takes[0]][each := takes[1]]
  {
    assert [grown, each][..1] == [grown] && takes[..1] == [takes[0]];
    assert [grown][..0] == [] && [takes[0]][..0] == [];
    assert Entering(scope, [], []) == Some(scope);
    assert Entering(scope, [grown], [takes[0]]) == Some(scope[grown := takes[0]]);
  }

  lemma TwoAreEntered(scope: Scope, a: nat, s: Ty, b: nat, t: Ty)
    requires a !in scope && b !in scope && a != b
    ensures Entering(scope, [a, b], [s, t]) == Some(scope[a := s][b := t])
  {
    assert [a, b][..1] == [a] && [s, t][..1] == [s];
    assert [a][..0] == [] && [s][..0] == [];
    assert Entering(scope, [], []) == Some(scope);
    assert Entering(scope, [a], [s]) == Some(scope[a := s]);
  }

  /** A walk with nothing bound around its step. */
  lemma PlainWalkStands(w: World, required: seq<string>, scope: Scope, node: Node)
    requires node.Walk? && node.around == [] && |node.takes| == 2
    requires BuildsA(node.builds, node.takes[0]) && BuildsA(node.builds, node.ty) && node.ty == node.answers
    requires node.grown !in scope && node.each !in scope && node.grown != node.each
    requires Accepts(w, required, scope, node.walked) && node.walked.ty == List(node.takes[1])
    requires Accepts(w, required, scope, node.from) && node.from.ty == Prim(IntPrim)
    requires Accepts(w, required, scope[node.grown := node.takes[0]][node.each := node.takes[1]], node.body)
    requires node.body.ty == node.answers
    ensures Accepts(w, required, scope, node)
  {
    TwoAreEntered(scope, node.grown, node.takes[0], node.each, node.takes[1]);
    assert node.takes == [node.takes[0], node.takes[1]];
    assert AroundScope(w, required, scope, []) == Some(scope);
  }

  /** A call's arguments against what it reaches takes, and its type against what that answers. */
  predicate CallStands(w: World, required: seq<string>, reaches: Reaches, arguments: seq<Node>, ty: Ty) {
    match reaches
    case Behavior(declared) =>
      && declared in w.targets && TypedAs(arguments, w.targets[declared].takes)
      && ReachedAsConstructed(w, required, declared) && ty == w.targets[declared].answers
    case Helper(reached) =>
      reached in w.helpers && TypedAs(arguments, w.helpers[reached].takes) && ty == w.helpers[reached].body.ty
    case Kernel(kernel, settled) => TypedAs(arguments, settled) && w.settles(kernel, settled, ty)
    case GrowList => ty.List? && TypedAs(arguments, [ty, ty])
    case PutMap => ty.Map? && TypedAs(arguments, [ty, ty.key, ty.value])
  }

  predicate AcceptsBody(w: World, required: seq<string>, takes: seq<Ty>, body: Node) {
    Accepts(w, required, PositionalTypes(takes), body) && Confined(body)
  }

  // ----- whole documents -----

  function Leaving(cases: seq<Case>, accepted: seq<Case>): (r: seq<Case>)
    ensures forall c :: c in r <==> c in cases && c !in accepted
  {
    if cases == [] then []
    else (if cases[0] in accepted then [] else [cases[0]]) + Leaving(cases[1..], accepted)
  }

  /** What a stage is handed of what runs, and what of it leaves. */
  predicate RoutingStands(d: Declared, routing: Routing, running: Ty, taken: Ty, answers: Ty) {
    match routing
    case Always => Fits(d, running, taken)
    case OnCases(accepted) =>
      && AreLeaves(d, accepted)
      && CasesOf(d, running).Some?
      && Fits(d, Union(accepted), running) && Fits(d, Union(accepted), taken)
      && var leaving := Leaving(CasesOf(d, running).value, LeavesOf(d, accepted));
         leaving != [] ==> Fits(d, Union(leaving), answers)
  }

  /** A stage at place one or later, where `running` is the type before it: routed by cases if and only
      if `SaysItsCase(running)`. */
  predicate StageStands(w: World, stage: Stage, running: Ty, answers: Ty) {
    && stage.behavior in w.targets && |w.targets[stage.behavior].takes| == 1
    && stage.routing.OnCases? == SaysItsCase(running)
    && RoutingStands(w.declared, stage.routing, running, w.targets[stage.behavior].takes[0], answers)
  }

  predicate ComposesFrom(w: World, stages: seq<Stage>, running: Ty, answers: Ty) {
    if stages == [] then Fits(w.declared, running, answers)
    else
      && StageStands(w, stages[0], running, answers)
      && ComposesFrom(w, stages[1..], w.targets[stages[0].behavior].answers, answers)
  }

  predicate Composes(w: World, target: Target, stages: seq<Stage>) {
    && stages != [] && stages[0].routing.Always? && stages[0].behavior in w.targets
    && w.targets[stages[0].behavior].takes == target.takes
    && ComposesFrom(w, stages[1..], w.targets[stages[0].behavior].answers, target.answers)
  }

  /** For every stage with a target: the stage itself is in `requirements` where it is injected, and its
      own requirements all are where it is not. */
  predicate StagesHanded(w: World, requirements: seq<string>, stages: seq<Stage>) {
    forall i :: 0 <= i < |stages| && stages[i].behavior in w.targets ==>
      var reached := w.targets[stages[i].behavior];
      if reached.kind.Injected? then stages[i].behavior in requirements
      else forall r :: r in reached.requirements ==> r in requirements
  }

  predicate DefinitionStands(w: World, declared: string) {
    && declared in w.definitions && declared in w.targets
    && w.definitions[declared].requirements == w.targets[declared].requirements
    && (forall r :: r in w.definitions[declared].requirements ==> r in w.targets)
    && match w.definitions[declared]
       case BodyOf(requirements, body) =>
         && w.targets[declared].kind.ByBody? && body.ty == w.targets[declared].answers
         && AcceptsBody(w, requirements, w.targets[declared].takes, body)
       case StagesOf(requirements, stages) =>
         && w.targets[declared].kind.Composed?
         && Composes(w, w.targets[declared], stages) && StagesHanded(w, requirements, stages)
  }

  ghost predicate AcceptsDocument(w: World) {
    && (forall name :: DefinedHere(w, name) ==> DefinitionStands(w, name))
    && (forall name :: name in w.helpers ==> AcceptsBody(w, [], w.helpers[name].takes, w.helpers[name].body))
  }

  /** A document of one body stands where the body does. */
  lemma OneDefinition(w: World, name: string, takes: seq<Ty>, answers: Ty, body: Node)
    requires w.targets == map[name := Target(takes, answers, ByBody, [])] && w.definitions == map[name := BodyOf([], body)]
    requires w.helpers == map[] && body.ty == answers
    ensures AcceptsDocument(w) <==> AcceptsBody(w, [], takes, body)
  {
    assert DefinedHere(w, name) && (DefinitionStands(w, name) <==> AcceptsBody(w, [], takes, body));
    forall other | DefinedHere(w, other) ensures other == name { }
  }

  /** What soundness asks of the steps of a document besides: a list's answers by names in force for its
      list alone, and a map's answers what fits the argument it comes back as. Both are read off the bodies. */
  ghost predicate StepsHold(w: World) {
    && (forall name :: name in w.definitions && w.definitions[name].BodyOf? ==>
          Scoped(Some(w.declared), w.definitions[name].body, {}, {}))
    && (forall name :: name in w.helpers ==> Scoped(Some(w.declared), w.helpers[name].body, {}, {}))
  }

  /** The same by the pass: no step lets go of a name of its list (`KeepsNames`), and maps fit. */
  ghost predicate StepsKeep(w: World) {
    && (forall name :: name in w.definitions && w.definitions[name].BodyOf? ==>
          Ordinary(Steps(Some(w.declared), true), w.definitions[name].body, {}, {}).Some?)
    && (forall name :: name in w.helpers ==> Ordinary(Steps(Some(w.declared), true), w.helpers[name].body, {}, {}).Some?)
  }

  /** A name a module of the document defines, or one whose target says it does. */
  predicate DefinedHere(w: World, name: string) {
    name in w.definitions || (name in w.targets && (w.targets[name].kind.ByBody? || w.targets[name].kind.Composed?))
  }

  /** A tree of capabilities matches the requirements in the targets, place by place down to hosted
      leaves, which match any name. */
  predicate Stands(w: World, capability: Capability, required: string)
    decreases capability
  {
    required in w.targets &&
    match capability
    case Hosted(_) => true
    case Bound(behavior, stands) =>
      && behavior == required && !w.targets[behavior].kind.Injected?
      && |stands| == |w.targets[behavior].requirements|
      && forall i :: 0 <= i < |stands| ==> Stands(w, stands[i], w.targets[behavior].requirements[i])
  }

  predicate StandFor(w: World, capabilities: seq<Capability>, requirements: seq<string>) {
    |capabilities| == |requirements| &&
    forall i :: 0 <= i < |capabilities| ==> Stands(w, capabilities[i], requirements[i])
  }
}
