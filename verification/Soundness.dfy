/** A body every relation of which holds runs without a step it cannot take, and answers only values
    of the type it says: over every body of a document, through calls, compositions, function values
    and the capabilities a behavior was handed. */
module Soundness {
  import opened Options
  import opened Transport
  import opened Declarations
  import opened Growing
  import opened Machine
  import opened Coherence
  import opened Typing

  // ----- what is taken of what the document does not say -----

  /** A kernel whose application the checker settled answers a value of what it was settled to. */
  ghost predicate KernelKeeps(w: World, k: nat, kernel: string, settled: seq<Ty>, answers: Ty, arguments: seq<Value>) {
    w.settles(kernel, settled, answers) && AllOf(w, k, arguments, settled) ==>
      Safe(w, w.kernel(k, kernel, arguments), answers)
  }

  ghost predicate OutsideKeeps(w: World, k: nat, declared: string, arguments: seq<Value>) {
    declared in w.targets && AllOf(w, k, arguments, w.targets[declared].takes) ==>
      Safe(w, w.outside(k, declared, arguments), w.targets[declared].answers)
  }

  ghost predicate HostKeeps(w: World, k: nat, id: int, declared: string, arguments: seq<Value>) {
    declared in w.targets && AllOf(w, k, arguments, w.targets[declared].takes) ==>
      Safe(w, w.hosted(k, id, declared, arguments), w.targets[declared].answers)
  }

  /** A clause said not to hold is one of the declaration's. */
  ghost predicate VerdictKeeps(w: World, declared: string, values: seq<Value>) {
    declared in w.declared && w.verdict(declared, values).Breaks? ==>
      w.verdict(declared, values).clause < |ClausesOf(w.declared[declared])|
  }

  /** What a document does not say answers what it is declared to. */
  ghost predicate OutsideStands(w: World) {
    && (forall declared, values :: VerdictKeeps(w, declared, values))
    && (forall k, kernel, settled, answers, arguments :: KernelKeeps(w, k, kernel, settled, answers, arguments))
    && (forall k, declared, arguments :: OutsideKeeps(w, k, declared, arguments))
    && (forall k, id, declared, arguments :: HostKeeps(w, k, id, declared, arguments))
  }

  /** A document accepted, with its steps as soundness needs them, in a world that keeps its word. */
  ghost predicate Stated(w: World) {
    AcceptsDocument(w) && StepsHold(w) && OutsideStands(w)
  }

  // ----- frames -----

  /** Each binding in force is bound, to a value of its type unless it names a list being grown. */
  ghost predicate BindingsOf(w: World, k: nat, bindings: map<nat, Value>, scope: Scope, grown: set<nat>) {
    && (forall x :: x in scope ==> x in bindings)
    && (forall x :: x in scope && x !in grown ==> Of(w, k, bindings[x], scope[x]))
  }

  ghost predicate FrameOf(w: World, k: nat, f: Frame, required: seq<string>, scope: Scope, grown: set<nat>) {
    && BindingsOf(w, k, f.bindings, scope, grown)
    && f.required == required
    && (required != [] ==> f.environment.Handed? && StandFor(w, f.environment.capabilities, required))
  }

  /** Each name for the list a step grows is bound to a list of what the walk answers a list of. */
  ghost predicate GrownOf(w: World, k: nat, bindings: map<nat, Value>, growing: set<nat>, element: Ty) {
    forall x :: x in growing ==> x in bindings && bindings[x].GrowingOf? && EachOf(w, k, bindings[x].elements, element)
  }

  lemma FrameDown(w: World, k: nat, j: nat, f: Frame, required: seq<string>, scope: Scope, grown: set<nat>)
    requires j <= k && FrameOf(w, k, f, required, scope, grown)
    ensures FrameOf(w, j, f, required, scope, grown)
  {
    forall x | x in scope && x !in grown ensures Of(w, j, f.bindings[x], scope[x]) {
      Down(w, k, j, f.bindings[x], scope[x]);
    }
  }

  lemma GrownDown(w: World, k: nat, j: nat, bindings: map<nat, Value>, growing: set<nat>, element: Ty)
    requires j <= k && GrownOf(w, k, bindings, growing, element)
    ensures GrownOf(w, j, bindings, growing, element)
  {
    forall x | x in growing ensures EachOf(w, j, bindings[x].elements, element) {
      DownEach(w, k, j, bindings[x].elements, element);
    }
  }

  lemma FrameBind(w: World, k: nat, f: Frame, required: seq<string>, scope: Scope, grown: set<nat>,
                  binding: nat, v: Value, ty: Ty)
    requires FrameOf(w, k, f, required, scope, grown) && (binding in grown || Of(w, k, v, ty))
    ensures FrameOf(w, k, Bind(f, map[binding := v]), required, scope[binding := ty], grown)
  {
  }

  /** What is handed for each parameter is in force at what the parameter takes. */
  lemma {:induction false} HandingOf(w: World, k: nat, bindings: map<nat, Value>, scope: Scope, grown: set<nat>,
                                     parameters: seq<nat>, arguments: seq<Value>, takes: seq<Ty>)
    requires BindingsOf(w, k, bindings, scope, grown)
    requires |parameters| == |takes| && AllOf(w, k, arguments, takes)
    requires Entering(scope, parameters, takes).Some?
    ensures BindingsOf(w, k, bindings + Handing(parameters, arguments), Entering(scope, parameters, takes).value, grown)
    decreases |parameters|
  {
    if parameters == [] {
      assert bindings + map[] == bindings;
    } else {
      var last := |parameters| - 1;
      HandingOf(w, k, bindings, scope, grown, parameters[..last], arguments[..last], takes[..last]);
      var inner := bindings + Handing(parameters[..last], arguments[..last]);
      assert bindings + Handing(parameters, arguments) == inner[parameters[last] := arguments[last]];
    }
  }

  lemma FrameHanding(w: World, k: nat, f: Frame, required: seq<string>, scope: Scope, grown: set<nat>,
                     parameters: seq<nat>, arguments: seq<Value>, takes: seq<Ty>)
    requires FrameOf(w, k, f, required, scope, grown)
    requires |parameters| == |takes| && AllOf(w, k, arguments, takes)
    requires Entering(scope, parameters, takes).Some?
    ensures FrameOf(w, k, Bind(f, Handing(parameters, arguments)), required, Entering(scope, parameters, takes).value, grown)
  {
    HandingOf(w, k, f.bindings, scope, grown, parameters, arguments, takes);
  }

  lemma FrameOfBody(w: World, k: nat, takes: seq<Ty>, arguments: seq<Value>, requirements: seq<string>, environment: Environment)
    requires AllOf(w, k, arguments, takes)
    requires requirements != [] ==> environment.Handed? && StandFor(w, environment.capabilities, requirements)
    ensures FrameOf(w, k, Frame(Positional(arguments), requirements, environment), requirements, PositionalTypes(takes), {})
  {
  }

  // ----- bodies -----

  /** Type soundness of a node, wherever it stands: every node the walk accepts, read in a frame
      giving each binding in force a value of its type. */
  lemma {:induction false} Sound(w: World, k: nat, node: Node, f: Frame, required: seq<string>, scope: Scope,
                                 growing: set<nat>, outside: set<nat>)
    requires Stated(w)
    requires Accepts(w, required, scope, node) && Scoped(Some(w.declared), node, growing, outside)
    requires FrameOf(w, k, f, required, scope, growing + outside)
    ensures Safe(w, Eval(Lexical, w, k, node, f), node.ty)
    decreases k, 0, node, 5
  {
    if node.Let? || node.If? || node.Match? {
      SoundFork(w, k, node, f, required, scope, growing, outside);
    } else if node.Call? || node.Walk? || node.Block? || node.Apply? {
      SoundCode(w, k, node, f, required, scope, growing, outside);
    } else {
      SoundData(w, k, node, f, required, scope, growing, outside);
    }
  }

  lemma {:induction false} SoundFork(w: World, k: nat, node: Node, f: Frame, required: seq<string>, scope: Scope,
                                     growing: set<nat>, outside: set<nat>)
    requires node.Let? || node.If? || node.Match?
    requires Stated(w)
    requires Accepts(w, required, scope, node) && Scoped(Some(w.declared), node, growing, outside)
    requires FrameOf(w, k, f, required, scope, growing + outside)
    ensures Safe(w, Eval(Lexical, w, k, node, f), node.ty)
    decreases k, 0, node, 3
  {
    match node
    case Let(_, _, _, _, _) => SoundLet(w, k, node, f, required, scope, growing, outside);
    case If(_, _, _, _) => SoundIf(w, k, node, f, required, scope, growing, outside);
    case Match(_, _, _) => SoundMatch(w, k, node, f, required, scope, growing, outside);
  }

  lemma {:induction false} SoundCode(w: World, k: nat, node: Node, f: Frame, required: seq<string>, scope: Scope,
                                     growing: set<nat>, outside: set<nat>)
    requires node.Call? || node.Walk? || node.Block? || node.Apply?
    requires Stated(w)
    requires Accepts(w, required, scope, node) && Scoped(Some(w.declared), node, growing, outside)
    requires FrameOf(w, k, f, required, scope, growing + outside)
    ensures Safe(w, Eval(Lexical, w, k, node, f), node.ty)
    decreases k, 0, node, 3
  {
    match node
    case Call(_, _, _) => SoundCall(w, k, node, f, required, scope, growing, outside);
    case Walk(_, _, _, _, _, _, _, _, _, _) => SoundWalk(w, k, node, f, required, scope, growing, outside);
    case Block(_, _, _, _) => SoundBlock(w, k, node, f, required, scope, growing, outside);
    case Apply(_, _, _) => SoundApply(w, k, node, f, required, scope, growing, outside);
  }

  lemma {:induction false} SoundData(w: World, k: nat, node: Node, f: Frame, required: seq<string>, scope: Scope,
                                     growing: set<nat>, outside: set<nat>)
    requires !(node.Let? || node.If? || node.Match? || node.Call? || node.Walk? || node.Block? || node.Apply?)
    requires Stated(w)
    requires Accepts(w, required, scope, node) && Scoped(Some(w.declared), node, growing, outside)
    requires FrameOf(w, k, f, required, scope, growing + outside)
    ensures Safe(w, Eval(Lexical, w, k, node, f), node.ty)
    decreases k, 0, node, 3
  {
    match node
    case Literal(_, _) => SoundLeaf(w, k, node, f, required, scope, growing, outside);
    case Read(_, _) => SoundLeaf(w, k, node, f, required, scope, growing, outside);
    case Unreachable(_) => SoundLeaf(w, k, node, f, required, scope, growing, outside);
    case AbsentNode(_) => SoundLeaf(w, k, node, f, required, scope, growing, outside);
    case UnitNode(_, _) => SoundUnit(w, k, node, f, required, scope);
    case Construct(_, _, _) => SoundConstruct(w, k, node, f, required, scope, growing, outside);
    case Attempt(_, _, _, _, _, _, _) => SoundAttempt(w, k, node, f, required, scope, growing, outside);
    case FieldOf(_, _, _) => SoundField(w, k, node, f, required, scope, growing, outside);
    case PresentNode(_, _) => SoundOptional(w, k, node, f, required, scope, growing, outside);
    case TupleNode(_, _) => SoundMembers(w, k, node, f, required, scope, growing, outside);
    case Member(_, _, _) => SoundMember(w, k, node, f, required, scope, growing, outside);
    case ListNode(_, _) => SoundMembers(w, k, node, f, required, scope, growing, outside);
    case Widen(_, _) => SoundWiden(w, k, node, f, required, scope, growing, outside);
  }

  lemma SoundLeaf(w: World, k: nat, node: Node, f: Frame, required: seq<string>, scope: Scope,
                  growing: set<nat>, outside: set<nat>)
    requires node.Literal? || node.Read? || node.Unreachable? || node.AbsentNode?
    requires Accepts(w, required, scope, node) && Scoped(Some(w.declared), node, growing, outside)
    requires FrameOf(w, k, f, required, scope, growing + outside)
    ensures Safe(w, Eval(Lexical, w, k, node, f), node.ty)
  {
  }

  lemma {:induction false} SoundMatch(w: World, k: nat, node: Node, f: Frame, required: seq<string>, scope: Scope,
                                 growing: set<nat>, outside: set<nat>)
    requires Stated(w) && node.Match?
    requires Accepts(w, required, scope, node) && Scoped(Some(w.declared), node, growing, outside)
    requires FrameOf(w, k, f, required, scope, growing + outside)
    ensures Safe(w, Eval(Lexical, w, k, node, f), node.ty)
    decreases k, 0, node, 1
  {
    Sound(w, k, node.subject, f, required, scope, growing, outside);
    var o := Eval(Lexical, w, k, node.subject, f);
    if o.Answered? {
      FrameDown(w, k, o.left, f, required, scope, growing + outside);
      SoundArms(w, o.left, o.value, node.subject.ty, node.arms, node.ty, f, required, scope, growing, outside);
    }
  }

  lemma {:induction false} SoundOptional(w: World, k: nat, node: Node, f: Frame, required: seq<string>, scope: Scope,
                                 growing: set<nat>, outside: set<nat>)
    requires Stated(w) && node.PresentNode?
    requires Accepts(w, required, scope, node) && Scoped(Some(w.declared), node, growing, outside)
    requires FrameOf(w, k, f, required, scope, growing + outside)
    ensures Safe(w, Eval(Lexical, w, k, node, f), node.ty)
    decreases k, 0, node, 1
  {
    Sound(w, k, node.value, f, required, scope, growing, outside);
  }

  lemma {:induction false} SoundMembers(w: World, k: nat, node: Node, f: Frame, required: seq<string>, scope: Scope,
                                 growing: set<nat>, outside: set<nat>)
    requires Stated(w) && (node.TupleNode? || node.ListNode?)
    requires Accepts(w, required, scope, node) && Scoped(Some(w.declared), node, growing, outside)
    requires FrameOf(w, k, f, required, scope, growing + outside)
    ensures Safe(w, Eval(Lexical, w, k, node, f), node.ty)
    decreases k, 0, node, 1
  {
    var tys := if node.TupleNode? then node.ty.members else seq(|node.nodes|, _ => node.ty.element);
    SoundAll(w, k, node.nodes, tys, f, required, scope, growing, outside);
    var all := EvalAll(Lexical, w, k, node.nodes, f);
    if all.AllAnswered? {
      forall i | 0 <= i < |tys| ensures Of(w, all.left, all.values[i], tys[i]) { }
    }
  }

  lemma {:induction false} SoundMember(w: World, k: nat, node: Node, f: Frame, required: seq<string>, scope: Scope,
                                 growing: set<nat>, outside: set<nat>)
    requires Stated(w) && node.Member?
    requires Accepts(w, required, scope, node) && Scoped(Some(w.declared), node, growing, outside)
    requires FrameOf(w, k, f, required, scope, growing + outside)
    ensures Safe(w, Eval(Lexical, w, k, node, f), node.ty)
    decreases k, 0, node, 1
  {
    Sound(w, k, node.tuple, f, required, scope, growing, outside);
  }

  lemma {:induction false} SoundWiden(w: World, k: nat, node: Node, f: Frame, required: seq<string>, scope: Scope,
                                 growing: set<nat>, outside: set<nat>)
    requires Stated(w) && node.Widen?
    requires Accepts(w, required, scope, node) && Scoped(Some(w.declared), node, growing, outside)
    requires FrameOf(w, k, f, required, scope, growing + outside)
    ensures Safe(w, Eval(Lexical, w, k, node, f), node.ty)
    decreases k, 0, node, 1
  {
    Sound(w, k, node.value, f, required, scope, growing, outside);
    var o := Eval(Lexical, w, k, node.value, f);
    if o.Answered? { FitsIsInclusion(w, o.left, o.value, node.value.ty, node.ty); }
  }

  lemma {:induction false} SoundAll(w: World, k: nat, nodes: seq<Node>, tys: seq<Ty>, f: Frame, required: seq<string>,
                                    scope: Scope, growing: set<nat>, outside: set<nat>)
    requires Stated(w)
    requires AcceptsAll(w, required, scope, nodes) && ScopedAll(Some(w.declared), nodes, growing, outside) && TypedAs(nodes, tys)
    requires FrameOf(w, k, f, required, scope, growing + outside)
    ensures SafeAll(w, EvalAll(Lexical, w, k, nodes, f), tys)
    decreases k, 0, nodes, 2
  {
    if nodes != [] {
      Sound(w, k, nodes[0], f, required, scope, growing, outside);
      var o := Eval(Lexical, w, k, nodes[0], f);
      if o.Answered? {
        FrameDown(w, k, o.left, f, required, scope, growing + outside);
        SoundAll(w, o.left, nodes[1..], tys[1..], f, required, scope, growing, outside);
        SafeTogether(w, o, EvalAll(Lexical, w, o.left, nodes[1..], f), tys);
      }
    }
  }

  lemma SafeTogether(w: World, o: Outcome, rest: Outcomes, tys: seq<Ty>)
    requires tys != [] && o.Answered? && Safe(w, o, tys[0]) && SafeAll(w, rest, tys[1..])
    requires rest.AllAnswered? ==> rest.left <= o.left
    ensures SafeAll(w, if rest.Cut? then rest else AllAnswered([o.value] + rest.values, rest.left), tys)
  {
    if rest.AllAnswered? {
      Down(w, o.left, rest.left, o.value, tys[0]);
      forall i | 0 < i < |tys| ensures Of(w, rest.left, ([o.value] + rest.values)[i], tys[i]) {
        assert Of(w, rest.left, rest.values[i - 1], tys[1..][i - 1]);
      }
    }
  }

  /** As `SoundAll`, for what a call is handed: a function never applied is of its type with no code. */
  lemma {:induction false} SoundArguments(w: World, k: nat, reaches: Reaches, nodes: seq<Node>, tys: seq<Ty>, f: Frame,
                                          required: seq<string>, scope: Scope, growing: set<nat>, outside: set<nat>)
    requires Stated(w)
    requires AcceptsAll(w, required, scope, nodes) && ScopedAll(Some(w.declared), nodes, growing, outside) && TypedAs(nodes, tys)
    requires FrameOf(w, k, f, required, scope, growing + outside)
    ensures SafeAll(w, EvalArguments(Lexical, w, k, reaches, nodes, f), tys)
    decreases k, 0, nodes, 2
  {
    if nodes != [] {
      var o := EvalArgument(Lexical, w, k, reaches, nodes[0], f);
      SoundArgument(w, k, reaches, nodes[0], f, required, scope, growing, outside);
      if o.Answered? {
        FrameDown(w, k, o.left, f, required, scope, growing + outside);
        SoundArguments(w, o.left, reaches, nodes[1..], tys[1..], f, required, scope, growing, outside);
        SafeTogether(w, o, EvalArguments(Lexical, w, o.left, reaches, nodes[1..], f), tys);
      }
    }
  }

  lemma {:induction false} SoundArgument(w: World, k: nat, reaches: Reaches, node: Node, f: Frame,
                                         required: seq<string>, scope: Scope, growing: set<nat>, outside: set<nat>)
    requires Stated(w) && Accepts(w, required, scope, node) && Scoped(Some(w.declared), node, growing, outside)
    requires FrameOf(w, k, f, required, scope, growing + outside)
    ensures Safe(w, EvalArgument(Lexical, w, k, reaches, node, f), node.ty)
    decreases k, 0, node, 6
  {
    if NeverApplied(reaches, node) {
      NeverAppliedIsOfItsType(w, k, NoCode, node.ty);
    } else {
      Sound(w, k, node, f, required, scope, growing, outside);
    }
  }

  /** No arguments satisfy `AllOf` for parameter types with `Nothing` among them. */
  lemma NothingIsHanded(w: World, k: nat, arguments: seq<Value>, takes: seq<Ty>)
    requires NeverRuns(takes)
    ensures !AllOf(w, k, arguments, takes)
  {
    var at :| 0 <= at < |takes| && takes[at] == Nothing;
    if |arguments| == |takes| { assert !Of(w, k, arguments[at], takes[at]); }
  }

  /** So any function value is one, and one with no code as good as any. */
  lemma NeverAppliedIsOfItsType(w: World, k: nat, v: Value, ty: Ty)
    requires ty.Fn? && NeverRuns(ty.takes) && (v.Closure? || v.NoCode?)
    ensures Of(w, k, v, ty)
  {
    forall j: nat, arguments: seq<Value>
      ensures AllOf(w, j, arguments, ty.takes) ==> Safe(w, Applied(Lexical, w, j, v, arguments), ty.answers)
    {
      NothingIsHanded(w, j, arguments, ty.takes);
    }
  }

  /** Skipping an arm under `NeverEntered` changes no run: for a typed subject its tests come out false. */
  lemma NeverEnteredIsNeverTaken(w: World, k: nat, v: Value, subject: Ty, arm: Arm)
    requires Of(w, k, v, subject) && NeverEntered(arm, subject) && subject.Optional?
    ensures Tests(v, arm.selects) == Some(false)
  {
    assert v.AbsentOf?;
    NoTestStands(v, arm.selects);
  }

  lemma {:induction false} NoTestStands(v: Value, selects: seq<Selects>)
    requires v.AbsentOf? && forall i :: 0 <= i < |selects| ==> selects[i].Held?
    ensures Tests(v, selects) == Some(false)
  {
    if selects != [] { NoTestStands(v, selects[1..]); }
  }

  lemma SoundUnit(w: World, k: nat, node: Node, f: Frame, required: seq<string>, scope: Scope)
    requires node.UnitNode? && Accepts(w, required, scope, node)
    ensures Safe(w, Eval(Lexical, w, k, node, f), node.ty)
  {
    var leaves := LeavesOf(w.declared, [node.unit]);
    assert [node.unit][0] == node.unit && node.unit in Reached(w.declared, [node.unit][0]);
    assert node.unit in leaves;
  }

  /** What is built of a declared type from values of its fields is of that type. */
  lemma RecordOf(w: World, k: nat, declared: string, fields: seq<Value>)
    requires declared in w.declared && IsBuilt(w.declared[declared])
    requires AllOf(w, k, fields, TypesOf(FieldsOf(w.declared[declared])))
    ensures Of(w, k, Record(declared, fields), Ref(Declared(declared)))
  {
    var named := Transport.Case.Declared(declared);
    assert [named][0] == named && named in Reached(w.declared, [named][0]);
    assert named in LeavesOf(w.declared, [named]);
  }

  lemma {:induction false} SoundConstruct(w: World, k: nat, node: Node, f: Frame, required: seq<string>, scope: Scope,
                                          growing: set<nat>, outside: set<nat>)
    requires Stated(w) && node.Construct?
    requires Accepts(w, required, scope, node) && Scoped(Some(w.declared), node, growing, outside)
    requires FrameOf(w, k, f, required, scope, growing + outside)
    ensures Safe(w, Eval(Lexical, w, k, node, f), node.ty)
    decreases k, 0, node, 1
  {
    var tys := TypesOf(FieldsOf(w.declared[node.declared]));
    SoundAll(w, k, node.values, tys, f, required, scope, growing, outside);
    var o := EvalAll(Lexical, w, k, node.values, f);
    if o.AllAnswered? { RecordOf(w, o.left, node.declared, o.values); }
  }

  lemma {:induction false} SoundAttempt(w: World, k: nat, node: Node, f: Frame, required: seq<string>, scope: Scope,
                                        growing: set<nat>, outside: set<nat>)
    requires Stated(w) && node.Attempt?
    requires Accepts(w, required, scope, node) && Scoped(Some(w.declared), node, growing, outside)
    requires FrameOf(w, k, f, required, scope, growing + outside)
    ensures Safe(w, Eval(Lexical, w, k, node, f), node.ty)
    decreases k, 0, node, 1
  {
    SoundAll(w, k, node.values, TypesOf(FieldsOf(w.declared[node.declared])), f, required, scope, growing, outside);
    var o := EvalAll(Lexical, w, k, node.values, f);
    if o.AllAnswered? {
      FrameDown(w, k, o.left, f, required, scope, growing + outside);
      match w.verdict(node.declared, o.values)
      case EndsRun =>
      case Holds =>
        var built := Record(node.declared, o.values);
        RecordOf(w, o.left, node.declared, o.values);
        FrameBind(w, o.left, f, required, scope, growing + outside, node.binding, built, node.binds);
        Sound(w, o.left, node.built, Bind(f, map[node.binding := built]), required, scope[node.binding := node.binds],
              growing, outside);
      case Breaks(clause) =>
        assert VerdictKeeps(w, node.declared, o.values);
        var at := DepartureFor(ClausesOf(w.declared[node.declared]), node.departures, clause).value;
        assert node.departures[at].body < node.departures[at];
        Sound(w, o.left, node.departures[at].body, f, required, scope, growing, outside);
    }
  }

  lemma {:induction false} SoundField(w: World, k: nat, node: Node, f: Frame, required: seq<string>, scope: Scope,
                                      growing: set<nat>, outside: set<nat>)
    requires Stated(w) && node.FieldOf?
    requires Accepts(w, required, scope, node) && Scoped(Some(w.declared), node, growing, outside)
    requires FrameOf(w, k, f, required, scope, growing + outside)
    ensures Safe(w, Eval(Lexical, w, k, node, f), node.ty)
    decreases k, 0, node, 1
  {
    Sound(w, k, node.target, f, required, scope, growing, outside);
    var o := Eval(Lexical, w, k, node.target, f);
    if o.Answered? { FieldIsThere(w, o.left, o.value, node.target.ty, node.name, node.ty); }
  }

  /** `FieldStands` gives a field at run time, of the read type, for a record and for any leaf of a sum. */
  lemma FieldIsThere(w: World, k: nat, v: Value, of: Ty, name: string, ty: Ty)
    requires Of(w, k, v, of) && FieldStands(w.declared, of, name, ty)
    ensures FieldIn(w, v, name).Some? && Of(w, k, FieldIn(w, v, name).value, ty)
  {
    var d := w.declared;
    var c := CaseOf(v).value;
    assert c in LeavesOf(d, [of.named]);
    if d[of.named.key].Sum? {
      var at := PositionOf(FieldsOf(d[c.key]), name).value;
      FitsIsInclusion(w, k, v.fields[at], FieldsOf(d[c.key])[at].ty, ty);
    } else {
      assert c in Reached(d, of.named);
    }
  }

  lemma {:induction false} SoundLet(w: World, k: nat, node: Node, f: Frame, required: seq<string>, scope: Scope,
                                    growing: set<nat>, outside: set<nat>)
    requires Stated(w) && node.Let?
    requires Accepts(w, required, scope, node) && Scoped(Some(w.declared), node, growing, outside)
    requires FrameOf(w, k, f, required, scope, growing + outside)
    ensures Safe(w, Eval(Lexical, w, k, node, f), node.ty)
    decreases k, 0, node, 1
  {
    var o := Eval(Lexical, w, k, node.value, f);
    var inner := scope[node.binding := node.binds];
    if NamesTheGrown(node.value, growing) {
      assert growing + {node.binding} + outside == growing + outside + {node.binding};
      assert FrameOf(w, k, f, required, scope, growing + {node.binding} + outside);
      GrownIsRead(w, k, node.value, f, required, scope, growing);
      FrameBind(w, k, f, required, scope, growing + {node.binding} + outside, node.binding, o.value, node.binds);
      Sound(w, k, node.body, Bind(f, map[node.binding := o.value]), required, inner, growing + {node.binding}, outside);
    } else {
      Sound(w, k, node.value, f, required, scope, growing, outside);
      if o.Answered? {
        FrameDown(w, k, o.left, f, required, scope, growing + outside);
        FrameBind(w, o.left, f, required, scope, growing + outside, node.binding, o.value, node.binds);
        Sound(w, o.left, node.body, Bind(f, map[node.binding := o.value]), required, inner, growing, outside);
      }
    }
  }

  /** Evaluating a node that `NamesTheGrown` spends nothing and yields the binding, under any type. */
  lemma GrownIsRead(w: World, k: nat, node: Node, f: Frame, required: seq<string>, scope: Scope, growing: set<nat>)
    requires Accepts(w, required, scope, node) && NamesTheGrown(node, growing)
    requires forall x :: x in scope ==> x in f.bindings
    ensures var read := if node.Widen? then node.value else node;
            && read.Read? && read.binding in growing && read.binding in f.bindings
            && Eval(Lexical, w, k, node, f) == Answered(f.bindings[read.binding], k)
  {
  }

  lemma {:induction false} SoundIf(w: World, k: nat, node: Node, f: Frame, required: seq<string>, scope: Scope,
                                   growing: set<nat>, outside: set<nat>)
    requires Stated(w) && node.If?
    requires Accepts(w, required, scope, node) && Scoped(Some(w.declared), node, growing, outside)
    requires FrameOf(w, k, f, required, scope, growing + outside)
    ensures Safe(w, Eval(Lexical, w, k, node, f), node.ty)
    decreases k, 0, node, 1
  {
    Sound(w, k, node.cond, f, required, scope, growing, outside);
    var o := Eval(Lexical, w, k, node.cond, f);
    if o.Answered? {
      FrameDown(w, k, o.left, f, required, scope, growing + outside);
      var taken := if o.value.scalar.b then node.yes else node.no;
      Sound(w, o.left, taken, f, required, scope, growing, outside);
      assert node.ty == taken.ty && Eval(Lexical, w, k, node, f) == Eval(Lexical, w, o.left, taken, f);
    }
  }

  // ----- arms -----

  /** For a typed subject, `Tests` is defined, and where it is true the binding exists and is of `readAs`,
      though `readAs` may be narrower than the subject. */
  lemma ArmStands(w: World, k: nat, v: Value, subject: Ty, arm: Arm)
    requires Of(w, k, v, subject)
    requires TestsStand(w.declared, subject, arm.selects) && ArmBinds(w.declared, subject, arm.selects, arm.binding)
    ensures Tests(v, arm.selects).Some?
    ensures Tests(v, arm.selects) == Some(true) ==> Named(v, arm.binding).Some?
    ensures Tests(v, arm.selects) == Some(true) && arm.binding.Selected? ==> Of(w, k, v, arm.binding.readAs)
    ensures Tests(v, arm.selects) == Some(true) && arm.binding.Payload? ==>
      v.PresentOf? && Of(w, k, v.value, arm.binding.readAs)
  {
    forall i | 0 <= i < |arm.selects| ensures Test(v, arm.selects[i]).Some? { }
    if Tests(v, arm.selects) == Some(true) && arm.binding.Selected? && |arm.selects| == 1 && arm.selects[0].Which? {
      SelectedIsOf(w, k, v, subject, arm.selects[0].atoms);
      FitsIsInclusion(w, k, v, Union(arm.selects[0].atoms), arm.binding.readAs);
    }
  }

  /** Narrowing: a typed subject whose case is in `atoms` is `Of` the union of `atoms`. */
  lemma SelectedIsOf(w: World, k: nat, v: Value, subject: Ty, atoms: seq<Case>)
    requires Of(w, k, v, subject) && HasCases(w.declared, subject) && AreLeaves(w.declared, atoms)
    requires Test(v, Which(atoms)) == Some(true)
    ensures Of(w, k, v, Union(atoms))
  {
    var c := CaseOf(v).value;
    var i :| 0 <= i < |atoms| && atoms[i] == c;
    assert c in Reached(w.declared, atoms[i]);
  }

  lemma {:induction false} SoundArms(w: World, k: nat, v: Value, subject: Ty, arms: seq<Arm>, ty: Ty, f: Frame,
                                     required: seq<string>, scope: Scope, growing: set<nat>, outside: set<nat>)
    requires Stated(w) && Of(w, k, v, subject)
    requires forall i :: 0 <= i < |arms| ==> AcceptsArm(w, required, scope, subject, arms[i], ty)
    requires forall i :: 0 <= i < |arms| ==> Scoped(Some(w.declared), arms[i].body, growing, outside)
    requires FrameOf(w, k, f, required, scope, growing + outside)
    ensures Safe(w, EvalArms(Lexical, w, k, v, subject, arms, f), ty)
    decreases k, 0, arms, 2
  {
    if arms != [] {
      SoundArms(w, k, v, subject, arms[1..], ty, f, required, scope, growing, outside);
      if !NeverEntered(arms[0], subject) {
        SoundArm(w, k, v, subject, arms[0], ty, f, required, scope, growing, outside);
      }
    }
  }

  lemma {:induction false} SoundArm(w: World, k: nat, v: Value, subject: Ty, arm: Arm, ty: Ty, f: Frame,
                                    required: seq<string>, scope: Scope, growing: set<nat>, outside: set<nat>)
    requires Stated(w) && Of(w, k, v, subject)
    requires AcceptsArm(w, required, scope, subject, arm, ty) && Scoped(Some(w.declared), arm.body, growing, outside)
    requires FrameOf(w, k, f, required, scope, growing + outside)
    ensures Tests(v, arm.selects).Some?
    ensures Tests(v, arm.selects) == Some(true) ==>
      Named(v, arm.binding).Some? && Safe(w, Eval(Lexical, w, k, arm.body, Bind(f, Named(v, arm.binding).value)), ty)
    decreases k, 0, arm, 2
  {
    ArmStands(w, k, v, subject, arm);
    if Tests(v, arm.selects) == Some(true) {
      FrameArm(w, k, v, arm, f, required, scope, growing + outside);
      Sound(w, k, arm.body, Bind(f, Named(v, arm.binding).value), required, ArmScope(scope, arm.binding).value,
            growing, outside);
    }
  }

  lemma FrameArm(w: World, k: nat, v: Value, arm: Arm, f: Frame, required: seq<string>, scope: Scope, grown: set<nat>)
    requires FrameOf(w, k, f, required, scope, grown) && Named(v, arm.binding).Some? && ArmScope(scope, arm.binding).Some?
    requires arm.binding.Selected? ==> Of(w, k, v, arm.binding.readAs)
    requires arm.binding.Payload? ==> v.PresentOf? && Of(w, k, v.value, arm.binding.readAs)
    ensures FrameOf(w, k, Bind(f, Named(v, arm.binding).value), required, ArmScope(scope, arm.binding).value, grown)
  {
    match arm.binding
    case NoName => assert f.bindings + map[] == f.bindings;
    case Selected(number, readAs) => FrameBind(w, k, f, required, scope, grown, number, v, readAs);
    case Payload(number, readAs) => FrameBind(w, k, f, required, scope, grown, number, v.value, readAs);
  }

  // ----- function values -----

  lemma {:induction false} SoundBlock(w: World, k: nat, node: Node, f: Frame, required: seq<string>, scope: Scope,
                                      growing: set<nat>, outside: set<nat>)
    requires Stated(w) && node.Block?
    requires Accepts(w, required, scope, node) && Scoped(Some(w.declared), node, growing, outside)
    requires FrameOf(w, k, f, required, scope, growing + outside)
    ensures Safe(w, Eval(Lexical, w, k, node, f), node.ty)
    decreases k, 0, node, 1
  {
    var v := Made(Lexical, node, f);
    var takes := node.ty.takes;
    if NeverRuns(takes) {
      NeverAppliedIsOfItsType(w, k, v, node.ty);
    } else {
      forall j: nat, arguments: seq<Value> | j < k && |arguments| == |takes|
        && (forall i :: 0 <= i < |takes| ==> Of(w, j, arguments[i], takes[i]))
        ensures Safe(w, Applied(Lexical, w, j, v, arguments), node.ty.answers)
      {
        FrameDown(w, k, j, f, required, scope, growing + outside);
        assert AllOf(w, j, arguments, takes);
        FrameHanding(w, j, f, required, scope, growing + outside, node.parameters, arguments, takes);
        Sound(w, j, node.body, Bind(f, Handing(node.parameters, arguments)), required,
              Entering(scope, node.parameters, takes).value, growing, outside);
      }
    }
  }

  lemma {:induction false} SoundApply(w: World, k: nat, node: Node, f: Frame, required: seq<string>, scope: Scope,
                                      growing: set<nat>, outside: set<nat>)
    requires Stated(w) && node.Apply?
    requires Accepts(w, required, scope, node) && Scoped(Some(w.declared), node, growing, outside)
    requires FrameOf(w, k, f, required, scope, growing + outside)
    ensures Safe(w, Eval(Lexical, w, k, node, f), node.ty)
    decreases k, 0, node, 1
  {
    Sound(w, k, node.applied, f, required, scope, growing, outside);
    var o := Eval(Lexical, w, k, node.applied, f);
    if o.Answered? {
      FrameDown(w, k, o.left, f, required, scope, growing + outside);
      SoundAll(w, o.left, node.arguments, node.applied.ty.takes, f, required, scope, growing, outside);
      SoundHanded(w, o.left, o.value, node.applied.ty, EvalAll(Lexical, w, o.left, node.arguments, f));
    }
  }

  /** A function handed what its arguments came to. */
  lemma SoundHanded(w: World, k: nat, v: Value, ty: Ty, all: Outcomes)
    requires ty.Fn? && Of(w, k, v, ty) && SafeAll(w, all, ty.takes)
    requires if all.AllAnswered? then all.left <= k else !all.outcome.Answered?
    ensures Safe(w, match all
                    case AllAnswered(values, left) => if left == 0 then Exhausted else Applied(Lexical, w, left - 1, v, values)
                    case Cut(outcome) => outcome, ty.answers)
  {
    if all.AllAnswered? && all.left > 0 {
      DownAll(w, all.left, all.left - 1, all.values, ty.takes);
      Down(w, k, all.left, v, ty);
      AppliedIsSafe(w, all.left, v, ty, all.values);
    }
  }

  lemma AppliedIsSafe(w: World, k: nat, v: Value, ty: Ty, arguments: seq<Value>)
    requires k > 0 && ty.Fn? && Of(w, k, v, ty) && AllOf(w, k - 1, arguments, ty.takes)
    ensures Safe(w, Applied(Lexical, w, k - 1, v, arguments), ty.answers)
  {
  }

  // ----- calls -----

  function Takes(w: World, reaches: Reaches, ty: Ty): seq<Ty>
    requires !reaches.GrowList?
  {
    match reaches
    case PutMap => if ty.Map? then [ty, ty.key, ty.value] else []
    case Behavior(declared) => if declared in w.targets then w.targets[declared].takes else []
    case Helper(reached) => if reached in w.helpers then w.helpers[reached].takes else []
    case Kernel(_, settled) => settled
  }

  lemma {:induction false} SoundCall(w: World, k: nat, node: Node, f: Frame, required: seq<string>, scope: Scope,
                                 growing: set<nat>, outside: set<nat>)
    requires Stated(w) && node.Call?
    requires Accepts(w, required, scope, node) && Scoped(Some(w.declared), node, growing, outside)
    requires FrameOf(w, k, f, required, scope, growing + outside)
    ensures Safe(w, Eval(Lexical, w, k, node, f), node.ty)
    decreases k, 0, node, 1
  {
    SoundArguments(w, k, node.reaches, node.arguments, Takes(w, node.reaches, node.ty), f, required, scope, growing, outside);
    var all := EvalArguments(Lexical, w, k, node.reaches, node.arguments, f);
    if all.AllAnswered? {
      FrameDown(w, k, all.left, f, required, scope, growing + outside);
      SoundReached(w, all.left, node, all.values, f, required, scope, growing + outside);
    }
  }

  /** What a call comes to once its arguments are values of what it reaches takes. */
  lemma {:induction false} SoundReached(w: World, k: nat, node: Node, arguments: seq<Value>, f: Frame,
                                        required: seq<string>, scope: Scope, grown: set<nat>)
    requires Stated(w) && node.Call? && !node.reaches.GrowList?
    requires CallStands(w, required, node.reaches, node.arguments, node.ty)
    requires FrameOf(w, k, f, required, scope, grown) && AllOf(w, k, arguments, Takes(w, node.reaches, node.ty))
    ensures node.reaches.PutMap? ==> Safe(w, Put(w, arguments, k), node.ty)
    ensures node.reaches.Kernel? ==> Safe(w, Within(w.kernel(k, node.reaches.kernel, arguments), k), node.ty)
    ensures node.reaches.Helper? && k > 0 ==> Safe(w, RunHelper(Lexical, w, k - 1, node.reaches.reached, arguments), node.ty)
    ensures node.reaches.Behavior? && k > 0 ==> Safe(w, RunCall(Lexical, w, k - 1, node.reaches.declared, arguments, f), node.ty)
    decreases k, 0, node, 0
  {
    match node.reaches
    case PutMap => PutIsSafe(w, k, arguments, node.ty);
    case Kernel(kernel, settled) => SoundKernel(w, k, kernel, settled, node.ty, arguments);
    case Helper(reached) =>
      if k > 0 {
        DownAll(w, k, k - 1, arguments, w.helpers[reached].takes);
        SoundHelper(w, k - 1, reached, arguments);
      }
    case Behavior(declared) =>
      if k > 0 { SoundCalled(w, k, declared, arguments, f, required, scope, grown); }
  }

  lemma PutIsSafe(w: World, k: nat, values: seq<Value>, ty: Ty)
    requires ty.Map? && AllOf(w, k, values, [ty, ty.key, ty.value])
    ensures Safe(w, Put(w, values, k), ty)
  {
    assert Of(w, k, values[0], ty) && Of(w, k, values[1], ty.key) && Of(w, k, values[2], ty.value);
  }

  lemma SoundKernel(w: World, k: nat, kernel: string, settled: seq<Ty>, ty: Ty, arguments: seq<Value>)
    requires Stated(w) && w.settles(kernel, settled, ty) && AllOf(w, k, arguments, settled)
    ensures Safe(w, Within(w.kernel(k, kernel, arguments), k), ty)
  {
    assert KernelKeeps(w, k, kernel, settled, ty, arguments);
    WithinIsSafe(w, w.kernel(k, kernel, arguments), k, ty);
  }

  lemma {:induction false} SoundCalled(w: World, k: nat, declared: string, arguments: seq<Value>, f: Frame,
                                       required: seq<string>, scope: Scope, grown: set<nat>)
    requires Stated(w) && k > 0 && declared in w.targets && ReachedAsConstructed(w, required, declared)
    requires FrameOf(w, k, f, required, scope, grown) && AllOf(w, k, arguments, w.targets[declared].takes)
    ensures Safe(w, RunCall(Lexical, w, k - 1, declared, arguments, f), w.targets[declared].answers)
    decreases k - 1, 5, 2
  {
    DownAll(w, k, k - 1, arguments, w.targets[declared].takes);
    FrameDown(w, k, k - 1, f, required, scope, grown);
    SoundBehaviorCall(w, k - 1, declared, arguments, f, required, scope, grown);
  }

  lemma WithinIsSafe(w: World, o: Outcome, k: nat, ty: Ty)
    requires Safe(w, o, ty)
    ensures Safe(w, Within(o, k), ty)
  {
    if o.Answered? { Down(w, o.left, Within(o, k).left, o.value, ty); }
  }

  lemma {:induction false} SoundHelper(w: World, k: nat, reached: string, arguments: seq<Value>)
    requires Stated(w) && reached in w.helpers && AllOf(w, k, arguments, w.helpers[reached].takes)
    ensures Safe(w, RunHelper(Lexical, w, k, reached, arguments), w.helpers[reached].body.ty)
    decreases k, 1
  {
    var helper := w.helpers[reached];
    FrameOfBody(w, k, helper.takes, arguments, [], Unhanded);
    var none: set<nat> := {};
    assert none + none == none;
    Sound(w, k, helper.body, Frame(Positional(arguments), [], Unhanded), [], PositionalTypes(helper.takes), none, none);
  }

  lemma {:induction false} SoundBehaviorCall(w: World, k: nat, declared: string, arguments: seq<Value>, f: Frame,
                                             required: seq<string>, scope: Scope, grown: set<nat>)
    requires Stated(w) && declared in w.targets && ReachedAsConstructed(w, required, declared)
    requires FrameOf(w, k, f, required, scope, grown) && AllOf(w, k, arguments, w.targets[declared].takes)
    ensures Safe(w, RunCall(Lexical, w, k, declared, arguments, f), w.targets[declared].answers)
    decreases k, 4
  {
    if declared in required {
      var at := PlaceOf(f.required, declared).value;
      SoundThrough(w, k, f.environment.capabilities[at], declared, arguments);
    } else {
      SoundBehavior(w, k, declared, [], arguments);
    }
  }

  lemma {:induction false} SoundThrough(w: World, k: nat, through: Capability, declared: string, arguments: seq<Value>)
    requires Stated(w) && Stands(w, through, declared) && AllOf(w, k, arguments, w.targets[declared].takes)
    ensures Safe(w, RunThrough(Lexical, w, k, through, declared, arguments), w.targets[declared].answers)
    decreases k, 3
  {
    match through
    case Hosted(id) =>
      assert HostKeeps(w, k, id, declared, arguments);
      WithinIsSafe(w, w.hosted(k, id, declared, arguments), k, w.targets[declared].answers);
    case Bound(behavior, stands) => SoundBehavior(w, k, behavior, stands, arguments);
  }

  /** Type soundness of whole runs: given `StandFor` of its requirements and typed arguments, a behavior of
      a `Stated` world is never `Stuck`, a missing capability included, and any answer has the target's
      type, through every call it leads to. */
  lemma {:induction false} SoundBehavior(w: World, k: nat, declared: string, capabilities: seq<Capability>, arguments: seq<Value>)
    requires Stated(w) && declared in w.targets && !w.targets[declared].kind.Injected?
    requires StandFor(w, capabilities, w.targets[declared].requirements)
    requires AllOf(w, k, arguments, w.targets[declared].takes)
    ensures Safe(w, RunBehavior(Lexical, w, k, declared, capabilities, arguments), w.targets[declared].answers)
    decreases k, 2
  {
    var target := w.targets[declared];
    if target.kind.Elsewhere? {
      assert OutsideKeeps(w, k, declared, arguments);
      WithinIsSafe(w, w.outside(k, declared, arguments), k, target.answers);
    } else if !target.kind.Unwritten? {
      assert DefinedHere(w, declared) && declared in w.definitions;
      if k > 0 {
        DownAll(w, k, k - 1, arguments, target.takes);
        SoundDefinition(w, k - 1, declared, capabilities, arguments);
      }
    }
  }

  lemma {:induction false} SoundDefinition(w: World, k: nat, declared: string, capabilities: seq<Capability>, arguments: seq<Value>)
    requires Stated(w) && DefinitionStands(w, declared)
    requires StandFor(w, capabilities, w.targets[declared].requirements)
    requires AllOf(w, k, arguments, w.targets[declared].takes)
    ensures Safe(w, RunDefinition(Lexical, w, k, w.definitions[declared], capabilities, arguments), w.targets[declared].answers)
    decreases k, 8
  {
    var target := w.targets[declared];
    match w.definitions[declared]
    case BodyOf(requirements, body) => SoundBody(w, k, requirements, body, target, capabilities, arguments);
    case StagesOf(requirements, stages) => SoundComposition(w, k, requirements, stages, target, capabilities, arguments);
  }

  lemma {:induction false} SoundBody(w: World, k: nat, requirements: seq<string>, body: Node, target: Target,
                                     capabilities: seq<Capability>, arguments: seq<Value>)
    requires Stated(w) && AcceptsBody(w, requirements, target.takes, body) && body.ty == target.answers
    requires Scoped(Some(w.declared), body, {}, {})
    requires StandFor(w, capabilities, requirements) && AllOf(w, k, arguments, target.takes)
    ensures Safe(w, Eval(Lexical, w, k, body, Frame(Positional(arguments), requirements, Handed(capabilities))), target.answers)
    decreases k, 1
  {
    FrameOfBody(w, k, target.takes, arguments, requirements, Handed(capabilities));
    var none: set<nat> := {};
    assert none + none == none;
    Sound(w, k, body, Frame(Positional(arguments), requirements, Handed(capabilities)), requirements,
          PositionalTypes(target.takes), none, none);
  }

  // ----- compositions -----

  lemma {:induction false} SoundStage(w: World, k: nat, stages: seq<Stage>, at: nat, requirements: seq<string>,
                                      capabilities: seq<Capability>, arguments: seq<Value>)
    requires Stated(w) && at < |stages| && StagesHanded(w, requirements, stages)
    requires StandFor(w, capabilities, requirements)
    requires stages[at].behavior in w.targets && AllOf(w, k, arguments, w.targets[stages[at].behavior].takes)
    ensures Safe(w, RunStage(Lexical, w, k, stages[at].behavior, requirements, capabilities, arguments),
                 w.targets[stages[at].behavior].answers)
    decreases k, 5, 0
  {
    var behavior := stages[at].behavior;
    if w.targets[behavior].kind.Injected? {
      SoundThrough(w, k, capabilities[PlaceOf(requirements, behavior).value], behavior, arguments);
    } else {
      var wanted := w.targets[behavior].requirements;
      ChosenStand(w, requirements, capabilities, wanted);
      SoundBehavior(w, k, behavior, Chosen(requirements, capabilities, wanted).value, arguments);
    }
  }

  /** What a composition hands a stage it builds stands for what the stage requires. */
  lemma {:induction false} ChosenStand(w: World, requirements: seq<string>, capabilities: seq<Capability>, wanted: seq<string>)
    requires StandFor(w, capabilities, requirements) && forall r :: r in wanted ==> r in requirements
    ensures Chosen(requirements, capabilities, wanted).Some?
    ensures StandFor(w, Chosen(requirements, capabilities, wanted).value, wanted)
  {
    if wanted != [] { ChosenStand(w, requirements, capabilities, wanted[1..]); }
  }

  /** Routing by cases is exhaustive: a typed running value is typed by the parameter of the stage or, if it
      `Leaves`, by the result of the composition. */
  lemma StageIsHanded(w: World, k: nat, stage: Stage, v: Value, running: Ty, answers: Ty)
    requires StageStands(w, stage, running, answers) && Of(w, k, v, running)
    ensures if Leaves(w, stage, v) then Of(w, k, v, answers) else Of(w, k, v, w.targets[stage.behavior].takes[0])
  {
    var d, taken := w.declared, w.targets[stage.behavior].takes[0];
    match stage.routing
    case Always => FitsIsInclusion(w, k, v, running, taken);
    case OnCases(accepted) =>
      OfCases(w, k, v, running);
      var cases := CasesOf(d, running).value;
      if Leaves(w, stage, v) {
        var leaving := Leaving(cases, LeavesOf(d, accepted));
        assert CaseOf(v).value in leaving;
        LeavingIsLeaves(d, running, leaving);
        FitsIsInclusion(w, k, v, Union(leaving), answers);
      } else {
        FitsIsInclusion(w, k, v, Union(accepted), taken);
      }
  }

  /** Cases a type descends to include no sum that gives way to others. */
  lemma LeavingIsLeaves(d: Declared, running: Ty, leaving: seq<Case>)
    requires CasesOf(d, running).Some? && forall c :: c in leaving ==> c in CasesOf(d, running).value
    ensures forall c :: c in leaving && !(c.Declared? && c.key in d && d[c.key].Sum?) ==> c in LeavesOf(d, leaving)
  {
    forall c | c in leaving && !(c.Declared? && c.key in d && d[c.key].Sum?) ensures c in LeavesOf(d, leaving) {
      var i :| 0 <= i < |leaving| && leaving[i] == c;
      assert c in Reached(d, leaving[i]);
    }
  }

  /** The inductive step over stages, for a running value that does not leave here. */
  lemma {:induction false} StageOn(w: World, k: nat, stages: seq<Stage>, at: nat, requirements: seq<string>,
                                   capabilities: seq<Capability>, v: Value, running: Ty, answers: Ty)
    requires Stated(w) && at < |stages| && StagesHanded(w, requirements, stages) && StandFor(w, capabilities, requirements)
    requires ComposesFrom(w, stages[at..], running, answers) && Of(w, k, v, running) && !Leaves(w, stages[at], v)
    ensures stages[at].behavior in w.targets && AllOf(w, k, [v], w.targets[stages[at].behavior].takes)
    ensures ComposesFrom(w, stages[at + 1..], w.targets[stages[at].behavior].answers, answers)
    ensures Safe(w, RunStage(Lexical, w, k, stages[at].behavior, requirements, capabilities, [v]),
                 w.targets[stages[at].behavior].answers)
    decreases k, 5, 1
  {
    assert stages[at..][0] == stages[at] && stages[at..][1..] == stages[at + 1..];
    StageIsHanded(w, k, stages[at], v, running, answers);
    SoundStage(w, k, stages, at, requirements, capabilities, [v]);
  }

  /** The run of the stages from `at`, by the first of them. */
  lemma StagesFrom(w: World, k: nat, stages: seq<Stage>, at: nat, requirements: seq<string>, capabilities: seq<Capability>, v: Value)
    requires at < |stages|
    ensures RunStages(Lexical, w, k, stages[at..], requirements, capabilities, v) ==
      if Leaves(w, stages[at], v) then Answered(v, k)
      else
        match RunStage(Lexical, w, k, stages[at].behavior, requirements, capabilities, [v])
        case Answered(u, left) => RunStages(Lexical, w, left, stages[at + 1..], requirements, capabilities, u)
        case other => other
  {
    assert stages[at..][0] == stages[at] && stages[at..][1..] == stages[at + 1..];
  }

  /** The induction over the stages from `at`: a running value typed by the stage before gives a safe
      outcome at the composition's type, wherever it leaves. */
  lemma {:induction false} SoundStages(w: World, k: nat, stages: seq<Stage>, at: nat, requirements: seq<string>,
                                       capabilities: seq<Capability>, v: Value, running: Ty, answers: Ty)
    requires Stated(w) && at <= |stages| && StagesHanded(w, requirements, stages) && StandFor(w, capabilities, requirements)
    requires ComposesFrom(w, stages[at..], running, answers) && Of(w, k, v, running)
    ensures Safe(w, RunStages(Lexical, w, k, stages[at..], requirements, capabilities, v), answers)
    decreases k, 6, |stages| - at
  {
    if at == |stages| {
      FitsIsInclusion(w, k, v, running, answers);
    } else {
      var behavior := stages[at].behavior;
      StagesFrom(w, k, stages, at, requirements, capabilities, v);
      if Leaves(w, stages[at], v) {
        assert stages[at..][0] == stages[at];
        StageIsHanded(w, k, stages[at], v, running, answers);
      } else {
        StageOn(w, k, stages, at, requirements, capabilities, v, running, answers);
        var o := RunStage(Lexical, w, k, behavior, requirements, capabilities, [v]);
        if o.Answered? {
          SoundStages(w, o.left, stages, at + 1, requirements, capabilities, o.value, w.targets[behavior].answers, answers);
        }
      }
    }
  }

  /** Composition soundness: a composition handed values of what it takes answers a value of what it
      answers, whichever stage answers it. */
  lemma {:induction false} SoundComposition(w: World, k: nat, requirements: seq<string>, stages: seq<Stage>, target: Target,
                                            capabilities: seq<Capability>, arguments: seq<Value>)
    requires Stated(w) && Composes(w, target, stages) && StagesHanded(w, requirements, stages)
    requires StandFor(w, capabilities, requirements) && AllOf(w, k, arguments, target.takes)
    ensures Safe(w, RunComposition(Lexical, w, k, stages, requirements, capabilities, arguments), target.answers)
    decreases k, 7
  {
    SoundStage(w, k, stages, 0, requirements, capabilities, arguments);
    var o := RunStage(Lexical, w, k, stages[0].behavior, requirements, capabilities, arguments);
    if o.Answered? {
      SoundStages(w, o.left, stages, 1, requirements, capabilities, o.value,
                  w.targets[stages[0].behavior].answers, target.answers);
    }
  }

  // ----- walks -----

  /** What is bound around a step is in force where the step is written. */
  lemma {:induction false} SoundAround(w: World, k: nat, around: seq<Around>, f: Frame, required: seq<string>, scope: Scope,
                                       growing: set<nat>, outside: set<nat>)
    requires Stated(w) && AroundScope(w, required, scope, around).Some?
    requires forall i :: 0 <= i < |around| ==> Scoped(Some(w.declared), around[i].value, growing, outside)
    requires FrameOf(w, k, f, required, scope, growing + outside)
    ensures var o := EvalAround(Lexical, w, k, around, f);
            if o.Broke? then !o.outcome.Stuck?
            else
              && FrameOf(w, o.left, o.frame, required, AroundScope(w, required, scope, around).value, growing + outside)
              && FrameOf(w, o.left, o.frame, required, scope, growing + outside)
    ensures var inner := AroundScope(w, required, scope, around).value;
            forall x :: x in scope ==> x in inner && inner[x] == scope[x]
    decreases k, 0, around, 2
  {
    if around != [] {
      var first := around[0];
      assert first.value < first;
      var inner := scope[first.binding := first.binds];
      Sound(w, k, first.value, f, required, scope, growing, outside);
      var o := Eval(Lexical, w, k, first.value, f);
      var g := Bind(f, map[first.binding := if o.Answered? then o.value else AbsentOf]);
      if o.Answered? {
        FrameDown(w, k, o.left, f, required, scope, growing + outside);
        FrameBind(w, o.left, f, required, scope, growing + outside, first.binding, o.value, first.binds);
        SoundAround(w, o.left, around[1..], g, required, inner, growing, outside);
      } else {
        AroundKeeps(w, required, inner, around[1..]);
      }
    }
  }

  lemma {:induction false} SoundWalk(w: World, k: nat, node: Node, f: Frame, required: seq<string>, scope: Scope,
                                     growing: set<nat>, outside: set<nat>)
    requires Stated(w) && node.Walk?
    requires Accepts(w, required, scope, node) && Scoped(Some(w.declared), node, growing, outside)
    requires FrameOf(w, k, f, required, scope, growing + outside)
    ensures Safe(w, Eval(Lexical, w, k, node, f), node.ty)
    decreases k, 0, node, 2
  {
    if NeverRuns(node.takes) {
      SoundRest(w, k, node, f, required, scope, growing, outside);
    } else {
      var o := EvalAround(Lexical, w, k, node.around, f);
      match node.builds
      case BuildsList =>
        SoundAround(w, k, node.around, f, required, scope, growing, outside);
        if o.InFrame? { SoundFramed(w, o.left, node, o.frame, required, scope, growing, outside, growing); }
      case BuildsMap =>
        var names := SoundStepAround(w, k, node, 0, f, required, scope, growing, outside);
        assert node.around[0..] == node.around;
        if o.InFrame? { SoundFramed(w, o.left, node, o.frame, required, scope, growing, outside, names); }
    }
  }

  /** A frame both of the scope a step is written in and of the one its walk stands in. */
  ghost predicate SafeFramed(w: World, o: Framed, required: seq<string>, inner: Scope, names: set<nat>, scope: Scope, grown: set<nat>) {
    if o.Broke? then !o.outcome.Stuck?
    else FrameOf(w, o.left, o.frame, required, inner, names) && FrameOf(w, o.left, o.frame, required, scope, grown)
  }

  /** What is bound around a map's step is in force where the step is written, the names for a list an
      enclosing step grows being `names` there. */
  lemma {:induction false} SoundStepAround(w: World, k: nat, node: Node, at: nat, f: Frame, required: seq<string>, scope: Scope,
                                           growing: set<nat>, outside: set<nat>) returns (names: set<nat>)
    requires Stated(w) && node.Walk? && at <= |node.around|
    requires AroundScope(w, required, scope, node.around[at..]).Some?
    requires ScopedStep(Some(w.declared), node, at, growing, outside)
    requires FrameOf(w, k, f, required, scope, growing + outside)
    ensures Scoped(Some(w.declared), node.body, names, outside)
    ensures SafeFramed(w, EvalAround(Lexical, w, k, node.around[at..], f), required,
                       AroundScope(w, required, scope, node.around[at..]).value, names + outside, scope, growing + outside)
    decreases k, 0, node, 1, |node.around| - at, 1
  {
    names := growing;
    if at < |node.around| {
      var first, rest := node.around[at], node.around[at..];
      assert rest[0] == first && rest[1..] == node.around[at + 1..] && first.value < first;
      if NamesTheGrown(first.value, growing) {
        names := SoundStepNaming(w, k, node, at, f, required, scope, growing, outside);
      } else {
        Sound(w, k, first.value, f, required, scope, growing, outside);
        names := SoundStepBinding(w, k, node, at, f, required, scope, growing, outside);
      }
    }
  }

  /** Where the next value bound is a name for the list an enclosing step grows. */
  lemma {:induction false} SoundStepNaming(w: World, k: nat, node: Node, at: nat, f: Frame, required: seq<string>, scope: Scope,
                                           growing: set<nat>, outside: set<nat>) returns (names: set<nat>)
    requires Stated(w) && node.Walk? && at < |node.around| && NamesTheGrown(node.around[at].value, growing)
    requires AroundScope(w, required, scope, node.around[at..]).Some?
    requires ScopedStep(Some(w.declared), node, at, growing, outside)
    requires FrameOf(w, k, f, required, scope, growing + outside)
    ensures Scoped(Some(w.declared), node.body, names, outside)
    ensures SafeFramed(w, EvalAround(Lexical, w, k, node.around[at..], f), required,
                       AroundScope(w, required, scope, node.around[at..]).value, names + outside, scope, growing + outside)
    decreases k, 0, node, 1, |node.around| - at, 0
  {
    var first, rest := node.around[at], node.around[at..];
    assert rest[0] == first && rest[1..] == node.around[at + 1..];
    var inner := scope[first.binding := first.binds];
    var o := Eval(Lexical, w, k, first.value, f);
    GrownIsRead(w, k, first.value, f, required, scope, growing);
    var g := Bind(f, map[first.binding := o.value]);
    FrameNaming(w, k, f, required, scope, growing, outside, first.binding, o.value, first.binds);
    names := SoundStepAround(w, k, node, at + 1, g, required, inner, growing + {first.binding}, outside);
    FrameLess(w, EvalAround(Lexical, w, k, node.around[at + 1..], g), required, inner, scope,
              growing + {first.binding} + outside, growing + outside, first.binding);
  }

  /** Where it is ordinary code. */
  lemma {:induction false} SoundStepBinding(w: World, k: nat, node: Node, at: nat, f: Frame, required: seq<string>, scope: Scope,
                                            growing: set<nat>, outside: set<nat>) returns (names: set<nat>)
    requires Stated(w) && node.Walk? && at < |node.around| && !NamesTheGrown(node.around[at].value, growing)
    requires AroundScope(w, required, scope, node.around[at..]).Some?
    requires ScopedStep(Some(w.declared), node, at, growing, outside)
    requires FrameOf(w, k, f, required, scope, growing + outside)
    requires Safe(w, Eval(Lexical, w, k, node.around[at].value, f), node.around[at].value.ty)
    ensures Scoped(Some(w.declared), node.body, names, outside)
    ensures SafeFramed(w, EvalAround(Lexical, w, k, node.around[at..], f), required,
                       AroundScope(w, required, scope, node.around[at..]).value, names + outside, scope, growing + outside)
    decreases k, 0, node, 1, |node.around| - at, 0
  {
    var first, rest := node.around[at], node.around[at..];
    assert rest[0] == first && rest[1..] == node.around[at + 1..];
    var inner := scope[first.binding := first.binds];
    var o := Eval(Lexical, w, k, first.value, f);
    if o.Answered? {
      var g := Bind(f, map[first.binding := o.value]);
      FrameDown(w, k, o.left, f, required, scope, growing + outside);
      FrameBind(w, o.left, f, required, scope, growing + outside, first.binding, o.value, first.binds);
      names := SoundStepAround(w, o.left, node, at + 1, g, required, inner, growing, outside);
      FrameLess(w, EvalAround(Lexical, w, o.left, node.around[at + 1..], g), required, inner, scope,
                growing + outside, growing + outside, first.binding);
    } else {
      names := NamesAfter(w, node, at + 1, growing, outside);
    }
  }

  /** The names there are for an enclosing list where a map's step's body is. */
  lemma {:induction false} NamesAfter(w: World, node: Node, at: nat, growing: set<nat>, outside: set<nat>) returns (names: set<nat>)
    requires node.Walk? && at <= |node.around| && ScopedStep(Some(w.declared), node, at, growing, outside)
    ensures Scoped(Some(w.declared), node.body, names, outside)
    decreases |node.around| - at
  {
    if at == |node.around| {
      names := growing;
    } else if NamesTheGrown(node.around[at].value, growing) {
      names := NamesAfter(w, node, at + 1, growing + {node.around[at].binding}, outside);
    } else {
      names := NamesAfter(w, node, at + 1, growing, outside);
    }
  }

  lemma FrameNaming(w: World, k: nat, f: Frame, required: seq<string>, scope: Scope, growing: set<nat>, outside: set<nat>,
                    binding: nat, v: Value, ty: Ty)
    requires FrameOf(w, k, f, required, scope, growing + outside) && binding !in scope
    ensures FrameOf(w, k, Bind(f, map[binding := v]), required, scope[binding := ty], growing + {binding} + outside)
  {
  }

  /** A frame of a scope with one number more is a frame of the scope. */
  lemma FrameLess(w: World, o: Framed, required: seq<string>, inner: Scope, scope: Scope, more: set<nat>, grown: set<nat>, binding: nat)
    requires o.InFrame? ==> FrameOf(w, o.left, o.frame, required, inner, more)
    requires (forall x :: x in scope ==> x in inner && inner[x] == scope[x]) && binding !in scope && grown <= more <= grown + {binding}
    ensures o.InFrame? ==> FrameOf(w, o.left, o.frame, required, scope, grown)
  {
  }

  /** A walk once what is bound around its step is bound. */
  lemma {:induction false} SoundFramed(w: World, k: nat, node: Node, f: Frame, required: seq<string>, scope: Scope,
                                       growing: set<nat>, outside: set<nat>, names: set<nat>)
    requires Stated(w) && node.Walk? && !NeverRuns(node.takes)
    requires Accepts(w, required, scope, node) && Scoped(Some(w.declared), node, growing, outside)
    requires if node.builds.BuildsList? then names == growing else Scoped(Some(w.declared), node.body, names, outside)
    requires FrameOf(w, k, f, required, scope, growing + outside)
    requires AroundScope(w, required, scope, node.around).Some?
    requires FrameOf(w, k, f, required, AroundScope(w, required, scope, node.around).value, names + outside)
    ensures var list := Eval(Lexical, w, k, node.walked, f);
            !list.Stuck? && (list.Answered? ==>
              && list.value.Elements?
              && var from := Eval(Lexical, w, list.left, node.from, f);
                 !from.Stuck? && (from.Answered? ==>
                   && from.value.ScalarOf? && from.value.scalar.Whole?
                   && Safe(w, Stepped(Lexical, w, from.left, node.builds, node.body, f, node.grown, node.each, Empty(node.builds),
                                      Rest(list.value.elements, from.value.scalar.n)), node.ty)))
    decreases k, 0, node, 1
  {
    SoundRest(w, k, node, f, required, scope, growing, outside);
    var list := Eval(Lexical, w, k, node.walked, f);
    if list.Answered? {
      var from := Eval(Lexical, w, list.left, node.from, f);
      if from.Answered? {
        var inner := AroundScope(w, required, scope, node.around).value;
        var rest := Rest(list.value.elements, from.value.scalar.n);
        FrameDown(w, k, from.left, f, required, inner, names + outside);
        RestOf(w, list.left, from.left, list.value, node.takes[1], from.value.scalar.n);
        match node.builds
        case BuildsList => SoundStepped(w, from.left, node, f, required, inner, growing + outside, [], rest);
        case BuildsMap => SoundMapStepped(w, from.left, node, f, required, inner, names, outside, Empty(BuildsMap), rest);
      }
    }
  }

  /** A map's step, handed a map of what the walk answers: it is of what the step takes there, since the
      one fits the other. */
  lemma {:induction false} SoundMapStep(w: World, k: nat, node: Node, f: Frame, required: seq<string>, inner: Scope,
                                        names: set<nat>, outside: set<nat>, acc: Value, each: Value)
    requires Stated(w) && node.Walk? && |node.takes| == 2 && node.body.ty == node.answers && Fits(w.declared, node.answers, node.takes[0])
    requires Entering(inner, [node.grown, node.each], node.takes).Some?
    requires Accepts(w, required, Entering(inner, [node.grown, node.each], node.takes).value, node.body)
    requires Scoped(Some(w.declared), node.body, names, outside)
    requires FrameOf(w, k, f, required, inner, names + outside)
    requires Of(w, k, acc, node.answers) && Of(w, k, each, node.takes[1])
    ensures Safe(w, Eval(Lexical, w, k, node.body, Bind(f, map[node.grown := acc, node.each := each])), node.answers)
    decreases k, 0, node.body, 6
  {
    var stepping := Entering(inner, [node.grown, node.each], node.takes).value;
    var g := Bind(f, map[node.grown := acc, node.each := each]);
    EnteringTwo(inner, node.grown, node.each, node.takes);
    FitsIsInclusion(w, k, acc, node.answers, node.takes[0]);
    FrameMapStep(w, k, f, required, inner, names + outside, node.grown, node.each, node.takes, acc, each);
    Sound(w, k, node.body, g, required, stepping, names, outside);
  }

  lemma {:induction false} SoundMapStepped(w: World, k: nat, node: Node, f: Frame, required: seq<string>, inner: Scope,
                                           names: set<nat>, outside: set<nat>, acc: Value, elements: seq<Value>)
    requires Stated(w) && node.Walk? && node.builds.BuildsMap? && |node.takes| == 2
    requires node.ty == node.answers && node.body.ty == node.answers && node.ty.Map?
    requires Fits(w.declared, node.answers, node.takes[0])
    requires Entering(inner, [node.grown, node.each], node.takes).Some?
    requires Accepts(w, required, Entering(inner, [node.grown, node.each], node.takes).value, node.body)
    requires Scoped(Some(w.declared), node.body, names, outside)
    requires FrameOf(w, k, f, required, inner, names + outside)
    requires Of(w, k, acc, node.ty) && EachOf(w, k, elements, node.takes[1])
    ensures Safe(w, Stepped(Lexical, w, k, BuildsMap, node.body, f, node.grown, node.each, acc, elements), node.ty)
    decreases k, 0, node.body, 7 + |elements|
  {
    if elements != [] {
      SoundMapStep(w, k, node, f, required, inner, names, outside, acc, elements[0]);
      var o := Eval(Lexical, w, k, node.body, Bind(f, map[node.grown := acc, node.each := elements[0]]));
      if o.Answered? {
        FrameDown(w, k, o.left, f, required, inner, names + outside);
        DownEach(w, k, o.left, elements[1..], node.takes[1]);
        SoundMapStepped(w, o.left, node, f, required, inner, names, outside, o.value, elements[1..]);
      }
    }
  }

  lemma FrameMapStep(w: World, k: nat, f: Frame, required: seq<string>, inner: Scope, grown_: set<nat>,
                     grown: nat, each: nat, takes: seq<Ty>, acc: Value, v: Value)
    requires |takes| == 2 && FrameOf(w, k, f, required, inner, grown_) && grown != each
    requires Of(w, k, acc, takes[0]) && Of(w, k, v, takes[1])
    ensures FrameOf(w, k, Bind(f, map[grown := acc, each := v]), required, inner[grown := takes[0]][each := takes[1]], grown_)
  {
  }

  lemma RestOf(w: World, k: nat, j: nat, list: Value, element: Ty, from: int)
    requires j <= k && Of(w, k, list, List(element))
    ensures EachOf(w, j, Rest(list.elements, from), element)
  {
    var rest := Rest(list.elements, from);
    forall i | 0 <= i < |rest| ensures Of(w, j, rest[i], element) {
      var at :| 0 <= at < |list.elements| && list.elements[at] == rest[i];
      Down(w, k, j, list.elements[at], element);
    }
  }

  /** The list walked and where the walk starts. */
  lemma {:induction false} SoundRest(w: World, k: nat, node: Node, f: Frame, required: seq<string>, scope: Scope,
                                     growing: set<nat>, outside: set<nat>)
    requires Stated(w) && node.Walk?
    requires Accepts(w, required, scope, node) && Scoped(Some(w.declared), node, growing, outside)
    requires FrameOf(w, k, f, required, scope, growing + outside)
    ensures Safe(w, Eval(Lexical, w, k, node.walked, f), List(node.takes[1]))
    ensures var list := Eval(Lexical, w, k, node.walked, f);
            list.Answered? ==> Safe(w, Eval(Lexical, w, list.left, node.from, f), Prim(IntPrim))
    decreases k, 0, node, 0
  {
    Sound(w, k, node.walked, f, required, scope, growing, outside);
    var list := Eval(Lexical, w, k, node.walked, f);
    if list.Answered? {
      FrameDown(w, k, list.left, f, required, scope, growing + outside);
      Sound(w, list.left, node.from, f, required, scope, growing, outside);
    }
  }

  /** A walk's steps, each with what it has grown: what is grown is a list of what the walk answers,
      whatever the accumulator is said to be a list of, since nothing reads it as that. */
  lemma {:induction false} SoundStepped(w: World, k: nat, node: Node, f: Frame, required: seq<string>, inner: Scope,
                                        outside: set<nat>, acc: seq<Value>, elements: seq<Value>)
    requires Stated(w) && node.Walk? && node.builds.BuildsList? && |node.takes| == 2 && node.ty == node.answers && node.ty.List?
    requires Entering(inner, [node.grown, node.each], node.takes).Some?
    requires Accepts(w, required, Entering(inner, [node.grown, node.each], node.takes).value, node.body)
    requires node.body.ty == node.answers && ScopedAnswer(Some(w.declared), node.body, {node.grown}, outside)
    requires FrameOf(w, k, f, required, inner, outside)
    requires EachOf(w, k, acc, node.ty.element) && EachOf(w, k, elements, node.takes[1])
    ensures Safe(w, Stepped(Lexical, w, k, BuildsList, node.body, f, node.grown, node.each, GrowingOf(acc), elements), node.ty)
    decreases k, 0, node.body, 4 + |elements|
  {
    if elements != [] {
      var g := Bind(f, map[node.grown := GrowingOf(acc), node.each := elements[0]]);
      SoundStep(w, k, node, f, required, inner, outside, acc, elements[0]);
      var o := Eval(Lexical, w, k, node.body, g);
      if o.Answered? {
        FrameDown(w, k, o.left, f, required, inner, outside);
        DownEach(w, k, o.left, elements[1..], node.takes[1]);
        SoundStepped(w, o.left, node, f, required, inner, outside, o.value.elements, elements[1..]);
      }
    }
  }

  /** One step, with what was grown so far and the element it is handed. */
  lemma {:induction false} SoundStep(w: World, k: nat, node: Node, f: Frame, required: seq<string>, inner: Scope,
                                     outside: set<nat>, acc: seq<Value>, each: Value)
    requires Stated(w) && node.Walk? && node.builds.BuildsList? && |node.takes| == 2 && node.ty == node.answers && node.ty.List?
    requires Entering(inner, [node.grown, node.each], node.takes).Some?
    requires Accepts(w, required, Entering(inner, [node.grown, node.each], node.takes).value, node.body)
    requires node.body.ty == node.answers && ScopedAnswer(Some(w.declared), node.body, {node.grown}, outside)
    requires FrameOf(w, k, f, required, inner, outside)
    requires EachOf(w, k, acc, node.ty.element) && Of(w, k, each, node.takes[1])
    ensures SafeGrown(w, Eval(Lexical, w, k, node.body, Bind(f, map[node.grown := GrowingOf(acc), node.each := each])),
                      node.ty.element)
    decreases k, 0, node.body, 3
  {
    var stepping := Entering(inner, [node.grown, node.each], node.takes).value;
    var g := Bind(f, map[node.grown := GrowingOf(acc), node.each := each]);
    EnteringTwo(inner, node.grown, node.each, node.takes);
    FrameStepping(w, k, f, required, inner, outside, node.grown, node.each, node.takes, acc, each);
    assert GrownOf(w, k, g.bindings, {node.grown}, node.ty.element);
    SoundAnswering(w, k, node.body, g, required, stepping, {node.grown}, outside, node.ty.element);
  }

  lemma FrameStepping(w: World, k: nat, f: Frame, required: seq<string>, inner: Scope, outside: set<nat>,
                      grown: nat, each: nat, takes: seq<Ty>, acc: seq<Value>, v: Value)
    requires |takes| == 2 && FrameOf(w, k, f, required, inner, outside) && Of(w, k, v, takes[1]) && grown != each
    ensures FrameOf(w, k, Bind(f, map[grown := GrowingOf(acc), each := v]), required,
                    inner[grown := takes[0]][each := takes[1]], {grown} + outside)
  {
  }

  ghost predicate SafeGrown(w: World, o: Outcome, element: Ty) {
    !o.Stuck? && (o.Answered? ==> o.value.GrowingOf? && EachOf(w, o.left, o.value.elements, element))
  }

  /** At `k` steps, being of `ty` implies being a list over `element`. */
  ghost predicate ReadsAs(w: World, k: nat, v: Value, ty: Ty, element: Ty) {
    Of(w, k, v, ty) ==> Of(w, k, v, List(element))
  }

  ghost predicate AllReadAs(w: World, ty: Ty, element: Ty) {
    forall j: nat, v :: ReadsAs(w, j, v, ty, element)
  }

  /** Where a step answers: a value of the node's type is a list of what the walk answers, and the
      list grown is one already. */
  lemma {:induction false} SoundAnswering(w: World, k: nat, node: Node, f: Frame, required: seq<string>, scope: Scope,
                                          growing: set<nat>, outside: set<nat>, element: Ty)
    requires Stated(w) && Accepts(w, required, scope, node) && ScopedAnswer(Some(w.declared), node, growing, outside)
    requires FrameOf(w, k, f, required, scope, growing + outside)
    requires growing <= scope.Keys && GrownOf(w, k, f.bindings, growing, element)
    requires AllReadAs(w, node.ty, element)
    ensures SafeGrown(w, Eval(Lexical, w, k, node, f), element)
    decreases k, 0, node, 2
  {
    match node
    case Read(_, _) =>
    case Unreachable(_) =>
    case Widen(value, ty) =>
      forall j: nat, v ensures ReadsAs(w, j, v, value.ty, element) {
        assert ReadsAs(w, j, v, ty, element);
        if Of(w, j, v, value.ty) { FitsIsInclusion(w, j, v, value.ty, ty); }
      }
      SoundAnswering(w, k, value, f, required, scope, growing, outside, element);
    case Let(_, _, _, _, _) => SoundAnsweringLet(w, k, node, f, required, scope, growing, outside, element);
    case If(_, _, _, _) => SoundAnsweringFork(w, k, node, f, required, scope, growing, outside, element);
    case Match(_, _, _) => SoundAnsweringFork(w, k, node, f, required, scope, growing, outside, element);
    case Call(_, _, _) => SoundGrowth(w, k, node, f, required, scope, growing, outside, element);
  }

  lemma {:induction false} SoundAnsweringFork(w: World, k: nat, node: Node, f: Frame, required: seq<string>, scope: Scope,
                                              growing: set<nat>, outside: set<nat>, element: Ty)
    requires Stated(w) && (node.If? || node.Match?)
    requires Accepts(w, required, scope, node) && ScopedAnswer(Some(w.declared), node, growing, outside)
    requires FrameOf(w, k, f, required, scope, growing + outside)
    requires growing <= scope.Keys && GrownOf(w, k, f.bindings, growing, element)
    requires AllReadAs(w, node.ty, element)
    ensures SafeGrown(w, Eval(Lexical, w, k, node, f), element)
    decreases k, 0, node, 1
  {
    var asked := if node.If? then node.cond else node.subject;
    Sound(w, k, asked, f, required, scope, growing, outside);
    var o := Eval(Lexical, w, k, asked, f);
    if o.Answered? {
      FrameDown(w, k, o.left, f, required, scope, growing + outside);
      GrownDown(w, k, o.left, f.bindings, growing, element);
      if node.If? {
        SoundAnswering(w, o.left, node.yes, f, required, scope, growing, outside, element);
        SoundAnswering(w, o.left, node.no, f, required, scope, growing, outside, element);
      } else {
        SoundAnsweringArms(w, o.left, o.value, asked.ty, node.arms, node.ty, f, required, scope, growing, outside, element);
      }
    }
  }

  lemma {:induction false} SoundAnsweringLet(w: World, k: nat, node: Node, f: Frame, required: seq<string>, scope: Scope,
                                             growing: set<nat>, outside: set<nat>, element: Ty)
    requires Stated(w) && node.Let? && Accepts(w, required, scope, node) && ScopedAnswer(Some(w.declared), node, growing, outside)
    requires FrameOf(w, k, f, required, scope, growing + outside)
    requires growing <= scope.Keys && GrownOf(w, k, f.bindings, growing, element)
    requires AllReadAs(w, node.ty, element)
    ensures SafeGrown(w, Eval(Lexical, w, k, node, f), element)
    decreases k, 0, node, 1
  {
    var o := Eval(Lexical, w, k, node.value, f);
    if NamesTheGrown(node.value, growing) {
      var named := growing + {node.binding};
      GrownIsRead(w, k, node.value, f, required, scope, growing);
      FrameNamed(w, k, f, required, scope, growing, outside, element, node.binding, o.value, node.binds);
      SoundAnswering(w, k, node.body, Bind(f, map[node.binding := o.value]), required, scope[node.binding := node.binds],
                     named, outside, element);
    } else {
      Sound(w, k, node.value, f, required, scope, growing, outside);
      if o.Answered? {
        GrownBind(w, k, o.left, f, required, scope, growing, outside, element, node.binding, o.value, node.binds);
        SoundAnswering(w, o.left, node.body, Bind(f, map[node.binding := o.value]), required,
                       scope[node.binding := node.binds], growing, outside, element);
      }
    }
  }

  /** A further name for the list grown. */
  lemma FrameNamed(w: World, k: nat, f: Frame, required: seq<string>, scope: Scope, growing: set<nat>, outside: set<nat>,
                   element: Ty, binding: nat, v: Value, ty: Ty)
    requires FrameOf(w, k, f, required, scope, growing + outside)
    requires growing <= scope.Keys && GrownOf(w, k, f.bindings, growing, element) && binding !in scope
    requires v.GrowingOf? && EachOf(w, k, v.elements, element)
    ensures FrameOf(w, k, Bind(f, map[binding := v]), required, scope[binding := ty], growing + {binding} + outside)
    ensures growing + {binding} <= scope[binding := ty].Keys
    ensures GrownOf(w, k, Bind(f, map[binding := v]).bindings, growing + {binding}, element)
  {
  }

  /** A name for something else, with the list grown still under its own. */
  lemma GrownBind(w: World, k: nat, j: nat, f: Frame, required: seq<string>, scope: Scope, growing: set<nat>, outside: set<nat>,
                  element: Ty, binding: nat, v: Value, ty: Ty)
    requires j <= k && FrameOf(w, k, f, required, scope, growing + outside)
    requires growing <= scope.Keys && GrownOf(w, k, f.bindings, growing, element) && binding !in scope
    requires Of(w, j, v, ty)
    ensures FrameOf(w, j, Bind(f, map[binding := v]), required, scope[binding := ty], growing + outside)
    ensures growing <= scope[binding := ty].Keys
    ensures GrownOf(w, j, Bind(f, map[binding := v]).bindings, growing, element)
  {
    FrameDown(w, k, j, f, required, scope, growing + outside);
    GrownDown(w, k, j, f.bindings, growing, element);
    FrameBind(w, j, f, required, scope, growing + outside, binding, v, ty);
  }

  lemma {:induction false} SoundAnsweringArms(w: World, k: nat, v: Value, subject: Ty, arms: seq<Arm>, ty: Ty, f: Frame,
                                              required: seq<string>, scope: Scope, growing: set<nat>, outside: set<nat>, element: Ty)
    requires Stated(w) && Of(w, k, v, subject)
    requires forall i :: 0 <= i < |arms| ==> AcceptsArm(w, required, scope, subject, arms[i], ty)
    requires forall i :: 0 <= i < |arms| ==> ScopedAnswer(Some(w.declared), arms[i].body, growing, outside)
    requires FrameOf(w, k, f, required, scope, growing + outside)
    requires growing <= scope.Keys && GrownOf(w, k, f.bindings, growing, element)
    requires AllReadAs(w, ty, element)
    ensures SafeGrown(w, EvalArms(Lexical, w, k, v, subject, arms, f), element)
    decreases k, 0, arms, 2
  {
    if arms != [] {
      SoundAnsweringArms(w, k, v, subject, arms[1..], ty, f, required, scope, growing, outside, element);
      if !NeverEntered(arms[0], subject) {
        SoundAnsweringArm(w, k, v, subject, arms[0], ty, f, required, scope, growing, outside, element);
      }
    }
  }

  lemma {:induction false} SoundAnsweringArm(w: World, k: nat, v: Value, subject: Ty, arm: Arm, ty: Ty, f: Frame,
                                             required: seq<string>, scope: Scope, growing: set<nat>, outside: set<nat>, element: Ty)
    requires Stated(w) && Of(w, k, v, subject)
    requires AcceptsArm(w, required, scope, subject, arm, ty) && ScopedAnswer(Some(w.declared), arm.body, growing, outside)
    requires FrameOf(w, k, f, required, scope, growing + outside)
    requires growing <= scope.Keys && GrownOf(w, k, f.bindings, growing, element)
    requires AllReadAs(w, ty, element)
    ensures Tests(v, arm.selects).Some?
    ensures Tests(v, arm.selects) == Some(true) ==>
      Named(v, arm.binding).Some? && SafeGrown(w, Eval(Lexical, w, k, arm.body, Bind(f, Named(v, arm.binding).value)), element)
    decreases k, 0, arm, 2
  {
    ArmStands(w, k, v, subject, arm);
    if Tests(v, arm.selects) == Some(true) {
      FrameArm(w, k, v, arm, f, required, scope, growing + outside);
      var inner := ArmScope(scope, arm.binding).value;
      var g := Bind(f, Named(v, arm.binding).value);
      GrownArm(w, k, v, arm.binding, f, scope, growing, element);
      SoundAnswering(w, k, arm.body, g, required, inner, growing, outside, element);
    }
  }

  lemma GrownArm(w: World, k: nat, v: Value, binding: ArmBinding, f: Frame, scope: Scope, growing: set<nat>, element: Ty)
    requires Named(v, binding).Some? && ArmScope(scope, binding).Some?
    requires growing <= scope.Keys && GrownOf(w, k, f.bindings, growing, element)
    ensures growing <= ArmScope(scope, binding).value.Keys
    ensures GrownOf(w, k, Bind(f, Named(v, binding).value).bindings, growing, element)
  {
    var g := Bind(f, Named(v, binding).value);
    forall x | x in growing ensures x in g.bindings && g.bindings[x] == f.bindings[x] { }
  }

  /** A growth of the list grown adds values of what the walk answers a list of. */
  lemma {:induction false} SoundGrowth(w: World, k: nat, node: Node, f: Frame, required: seq<string>, scope: Scope,
                                       growing: set<nat>, outside: set<nat>, element: Ty)
    requires Stated(w) && node.Call? && Accepts(w, required, scope, node) && ScopedAnswer(Some(w.declared), node, growing, outside)
    requires FrameOf(w, k, f, required, scope, growing + outside)
    requires GrownOf(w, k, f.bindings, growing, element)
    requires AllReadAs(w, node.ty, element)
    ensures SafeGrown(w, Eval(Lexical, w, k, node, f), element)
    decreases k, 0, node, 1
  {
    var grown, added := node.arguments[0], node.arguments[1];
    GrownIsRead(w, k, grown, f, required, scope, growing);
    Sound(w, k, added, f, required, scope, growing, outside);
    GrowthRuns(w, k, node, f);
    GrownIsSafe(w, k, Eval(Lexical, w, k, grown, f).value, Eval(Lexical, w, k, added, f), node.ty, element);
  }

  lemma GrownIsSafe(w: World, k: nat, v: Value, o: Outcome, ty: Ty, element: Ty)
    requires v.GrowingOf? && EachOf(w, k, v.elements, element) && Safe(w, o, ty) && AllReadAs(w, ty, element)
    requires o.Answered? ==> o.left <= k
    ensures SafeGrown(w, if o.Answered? then Grown([v, o.value], o.left) else o, element)
  {
    if o.Answered? {
      DownEach(w, k, o.left, v.elements, element);
      assert ReadsAs(w, o.left, o.value, ty, element);
    }
  }

  lemma GrowthRuns(w: World, k: nat, node: Node, f: Frame)
    requires node.Call? && node.reaches.GrowList? && |node.arguments| == 2
    requires !NeverApplied(node.reaches, node.arguments[0]) && !NeverApplied(node.reaches, node.arguments[1])
    requires Eval(Lexical, w, k, node.arguments[0], f).Answered? && Eval(Lexical, w, k, node.arguments[0], f).left == k
    ensures var first, o := Eval(Lexical, w, k, node.arguments[0], f), Eval(Lexical, w, k, node.arguments[1], f);
            Eval(Lexical, w, k, node, f) == if o.Answered? then Grown([first.value, o.value], o.left) else o
  {
    var grown, added := node.arguments[0], node.arguments[1];
    var first, o := Eval(Lexical, w, k, grown, f), Eval(Lexical, w, k, added, f);
    assert node.arguments[1..] == [added] && [added][1..] == [];
    assert EvalArgument(Lexical, w, k, node.reaches, grown, f) == first;
    assert EvalArgument(Lexical, w, k, node.reaches, added, f) == o;
    if o.Answered? {
      assert EvalArguments(Lexical, w, o.left, node.reaches, [], f) == AllAnswered([], o.left);
      assert EvalArguments(Lexical, w, k, node.reaches, [added], f) == AllAnswered([o.value], o.left);
      assert EvalArguments(Lexical, w, k, node.reaches, node.arguments, f) == AllAnswered([first.value, o.value], o.left);
    } else {
      assert EvalArguments(Lexical, w, k, node.reaches, [added], f) == Cut(o);
      assert EvalArguments(Lexical, w, k, node.reaches, node.arguments, f) == Cut(o);
    }
  }
}
