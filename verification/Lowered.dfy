/** What is lowered of an accepted document: closures carrying what was planned for them, each capture
    at its binder's type, run as soundly as the document says. */
module Lowered {
  import opened Transport
  import opened Machine
  import opened Coherence
  import opened Typing
  import opened Closures
  import Soundness
  import Conversion

  // ----- a capture's type is its binder's -----

  ghost predicate TypedIn(reaches: seq<Reach>, scope: Scope) {
    forall i :: 0 <= i < |reaches| ==> reaches[i].binding in scope && scope[reaches[i].binding] == reaches[i].ty
  }

  lemma {:induction false} TypedWithout(reaches: seq<Reach>, inner: Scope, scope: Scope, bound: set<nat>)
    requires TypedIn(reaches, inner)
    requires forall x :: x in inner && x !in bound ==> x in scope && scope[x] == inner[x]
    ensures TypedIn(Without(reaches, bound), scope)
    decreases |reaches|
  {
    if reaches != [] { TypedWithout(reaches[..|reaches| - 1], inner, scope, bound); }
  }

  lemma {:induction false} TypedGather(gathered: seq<Reach>, more: seq<Reach>, scope: Scope)
    requires TypedIn(gathered, scope) && TypedIn(more, scope)
    ensures TypedIn(Gather(gathered, more), scope)
    decreases |more|
  {
    if more != [] { TypedGather(gathered, more[..|more| - 1], scope); }
  }

  /** Every free read of a node the walk accepts is at the type its binder is in force at. */
  lemma {:induction false} FreeReadsAreTyped(w: World, required: seq<string>, scope: Scope, node: Node)
    requires Accepts(w, required, scope, node)
    ensures TypedIn(FreeReads(node), scope)
    decreases node, 2
  {
    match node
    case Read(_, _) =>
    case Literal(_, _) =>
    case UnitNode(_, _) =>
    case Unreachable(_) =>
    case AbsentNode(_) =>
    case Construct(_, _, _) => PartReadsAreTyped(w, required, scope, node);
    case Attempt(_, _, _, _, _, _, _) => AttemptReadsAreTyped(w, required, scope, node);
    case FieldOf(_, _, _) => PartReadsAreTyped(w, required, scope, node);
    case Let(_, _, _, _, _) => BinderReadsAreTyped(w, required, scope, node);
    case If(_, _, _, _) => PartReadsAreTyped(w, required, scope, node);
    case Match(_, _, _) => BinderReadsAreTyped(w, required, scope, node);
    case PresentNode(_, _) => PartReadsAreTyped(w, required, scope, node);
    case TupleNode(_, _) => PartReadsAreTyped(w, required, scope, node);
    case Member(_, _, _) => PartReadsAreTyped(w, required, scope, node);
    case ListNode(_, _) => PartReadsAreTyped(w, required, scope, node);
    case Call(_, _, _) => PartReadsAreTyped(w, required, scope, node);
    case Walk(_, _, _, _, _, _, _, _, _, _) => WalkReadsAreTyped(w, required, scope, node);
    case Block(_, _, _, _) => BlockReadsAreTyped(w, required, scope, node);
    case Apply(_, _, _) => PartReadsAreTyped(w, required, scope, node);
    case Widen(_, _) => PartReadsAreTyped(w, required, scope, node);
  }

  /** A node that binds nothing. */
  lemma {:induction false} PartReadsAreTyped(w: World, required: seq<string>, scope: Scope, node: Node)
    requires Accepts(w, required, scope, node)
    requires !node.Attempt? && !node.Let? && !node.Match? && !node.Walk? && !node.Block?
    ensures TypedIn(FreeReads(node), scope)
    decreases node, 1
  {
    match node
    case Construct(_, values, _) => AllReadsAreTyped(w, required, scope, values);
    case FieldOf(target, _, _) => FreeReadsAreTyped(w, required, scope, target);
    case If(cond, yes, no, _) =>
      FreeReadsAreTyped(w, required, scope, cond);
      FreeReadsAreTyped(w, required, scope, yes);
      FreeReadsAreTyped(w, required, scope, no);
    case PresentNode(value, _) => FreeReadsAreTyped(w, required, scope, value);
    case TupleNode(nodes, _) => AllReadsAreTyped(w, required, scope, nodes);
    case Member(tuple, _, _) => FreeReadsAreTyped(w, required, scope, tuple);
    case ListNode(nodes, _) => AllReadsAreTyped(w, required, scope, nodes);
    case Call(reaches, arguments, _) => ArgumentReadsAreTyped(w, required, scope, reaches, arguments);
    case Apply(applied, arguments, _) =>
      FreeReadsAreTyped(w, required, scope, applied);
      AllReadsAreTyped(w, required, scope, arguments);
    case Widen(value, _) => FreeReadsAreTyped(w, required, scope, value);
    case _ =>
  }

  /** A node that binds a name for part of itself. */
  lemma {:induction false} BinderReadsAreTyped(w: World, required: seq<string>, scope: Scope, node: Node)
    requires Accepts(w, required, scope, node) && (node.Let? || node.Match?)
    ensures TypedIn(FreeReads(node), scope)
    decreases node, 1
  {
    match node
    case Let(binding, binds, value, body, _) =>
      FreeReadsAreTyped(w, required, scope, value);
      FreeReadsAreTyped(w, required, scope[binding := binds], body);
      TypedWithout(FreeReads(body), scope[binding := binds], scope, {binding});
    case Match(subject, arms, ty) =>
      FreeReadsAreTyped(w, required, scope, subject);
      ArmReadsAreTyped(w, required, scope, arms, subject.ty, ty);
  }

  lemma {:induction false} AttemptReadsAreTyped(w: World, required: seq<string>, scope: Scope, node: Node)
    requires Accepts(w, required, scope, node) && node.Attempt?
    ensures TypedIn(FreeReads(node), scope)
    decreases node, 1
  {
    var inner := scope[node.binding := node.binds];
    AllReadsAreTyped(w, required, scope, node.values);
    FreeReadsAreTyped(w, required, inner, node.built);
    TypedWithout(FreeReads(node.built), inner, scope, {node.binding});
    DepartureReadsAreTyped(w, required, scope, node.departures);
  }

  lemma {:induction false} BlockReadsAreTyped(w: World, required: seq<string>, scope: Scope, node: Node)
    requires Accepts(w, required, scope, node) && node.Block?
    ensures TypedIn(FreeReads(node), scope)
    decreases node, 1
  {
    var inner := Entering(scope, node.parameters, node.ty.takes).value;
    FreeReadsAreTyped(w, required, inner, node.body);
    EnteringKeeps(scope, node.parameters, node.ty.takes);
    TypedWithout(FreeReads(node.body), inner, scope, NumbersIn(node.parameters));
  }

  lemma {:induction false} EnteringKeeps(scope: Scope, numbers: seq<nat>, tys: seq<Ty>)
    requires |numbers| == |tys| && Entering(scope, numbers, tys).Some?
    ensures var inner := Entering(scope, numbers, tys).value;
            forall x :: x in inner && x !in NumbersIn(numbers) ==> x in scope && scope[x] == inner[x]
    decreases |numbers|
  {
    if numbers != [] {
      var last := |numbers| - 1;
      EnteringKeeps(scope, numbers[..last], tys[..last]);
      assert forall x :: x in numbers[..last] ==> x in numbers;
    }
  }

  lemma {:induction false} AllReadsAreTyped(w: World, required: seq<string>, scope: Scope, nodes: seq<Node>)
    requires AcceptsAll(w, required, scope, nodes)
    ensures TypedIn(FreeReadsAll(nodes), scope)
    decreases nodes, 1
  {
    if nodes != [] {
      AllReadsAreTyped(w, required, scope, nodes[..|nodes| - 1]);
      FreeReadsAreTyped(w, required, scope, nodes[|nodes| - 1]);
    }
  }

  lemma {:induction false} ArgumentReadsAreTyped(w: World, required: seq<string>, scope: Scope, reaches: Reaches, nodes: seq<Node>)
    requires AcceptsAll(w, required, scope, nodes)
    ensures TypedIn(ArgumentReads(reaches, nodes), scope)
    decreases nodes, 1
  {
    if nodes != [] {
      ArgumentReadsAreTyped(w, required, scope, reaches, nodes[..|nodes| - 1]);
      FreeReadsAreTyped(w, required, scope, nodes[|nodes| - 1]);
    }
  }

  lemma {:induction false} ArmReadsAreTyped(w: World, required: seq<string>, scope: Scope, arms: seq<Arm>, subject: Ty, ty: Ty)
    requires forall i :: 0 <= i < |arms| ==> AcceptsArm(w, required, scope, subject, arms[i], ty)
    ensures TypedIn(ArmReads(arms, subject), scope)
    decreases arms, 1
  {
    if arms != [] {
      var last := arms[|arms| - 1];
      assert last.body < last;
      ArmReadsAreTyped(w, required, scope, arms[..|arms| - 1], subject, ty);
      var inner := ArmScope(scope, last.binding).value;
      FreeReadsAreTyped(w, required, inner, last.body);
      TypedWithout(FreeReads(last.body), inner, scope, ArmName(last.binding));
    }
  }

  lemma {:induction false} DepartureReadsAreTyped(w: World, required: seq<string>, scope: Scope, departures: seq<Departure>)
    requires forall i :: 0 <= i < |departures| ==> Accepts(w, required, scope, departures[i].body)
    ensures TypedIn(DepartureReads(departures), scope)
    decreases departures, 1
  {
    if departures != [] {
      var last := departures[|departures| - 1];
      assert last.body < last;
      DepartureReadsAreTyped(w, required, scope, departures[..|departures| - 1]);
      FreeReadsAreTyped(w, required, scope, last.body);
    }
  }

  lemma {:induction false} WalkReadsAreTyped(w: World, required: seq<string>, scope: Scope, node: Node)
    requires node.Walk? && Accepts(w, required, scope, node)
    ensures TypedIn(FreeReads(node), scope)
    decreases node, 1
  {
    StepReadsAreTyped(w, required, scope, node);
    FreeReadsAreTyped(w, required, scope, node.walked);
    FreeReadsAreTyped(w, required, scope, node.from);
  }

  lemma {:induction false} StepReadsAreTyped(w: World, required: seq<string>, scope: Scope, node: Node)
    requires node.Walk? && Accepts(w, required, scope, node)
    ensures TypedIn(AroundReads(node.around, Without(FreeReads(node.body), {node.grown, node.each})), scope)
    decreases node, 0
  {
    var inner := AroundScope(w, required, scope, node.around).value;
    var stepping := Entering(inner, [node.grown, node.each], node.takes).value;
    FreeReadsAreTyped(w, required, stepping, node.body);
    EnteringTwo(inner, node.grown, node.each, node.takes);
    TypedWithout(FreeReads(node.body), stepping, inner, {node.grown, node.each});
    AroundReadsAreTyped(w, required, scope, node.around, Without(FreeReads(node.body), {node.grown, node.each}));
  }

  lemma {:induction false} AroundReadsAreTyped(w: World, required: seq<string>, scope: Scope, around: seq<Around>, step: seq<Reach>)
    requires AroundScope(w, required, scope, around).Some?
    requires TypedIn(step, AroundScope(w, required, scope, around).value)
    ensures TypedIn(AroundReads(around, step), scope)
    decreases around, 1
  {
    if around != [] {
      var first := around[0];
      assert first.value < first;
      var inner := scope[first.binding := first.binds];
      FreeReadsAreTyped(w, required, scope, first.value);
      AroundReadsAreTyped(w, required, inner, around[1..], step);
      TypedWithout(AroundReads(around[1..], step), inner, scope, {first.binding});
    }
  }

  /** So each capture of a plan is at the type its binder is in force at where the block stands. */
  lemma CapturesAreTyped(w: World, required: seq<string>, scope: Scope, block: Node)
    requires block.Block? && Accepts(w, required, scope, block)
    ensures TypedIn(PlanOf(block, required).captures, scope)
  {
    FreeReadsAreTyped(w, required, scope, block);
    TypedGather([], FreeReads(block), scope);
  }

  // ----- running what was planned -----

  lemma {:induction false} AlikeItself(v: Value)
    ensures Conversion.Alike(v, v)
  {
    match v
    case Record(_, fields) => forall i | 0 <= i < |fields| ensures Conversion.Alike(fields[i], fields[i]) { AlikeItself(fields[i]); }
    case PresentOf(value) => AlikeItself(value);
    case Members(members) => forall i | 0 <= i < |members| ensures Conversion.Alike(members[i], members[i]) { AlikeItself(members[i]); }
    case GrowingOf(elements) => forall i | 0 <= i < |elements| ensures Conversion.Alike(elements[i], elements[i]) { AlikeItself(elements[i]); }
    case Elements(elements) => forall i | 0 <= i < |elements| ensures Conversion.Alike(elements[i], elements[i]) { AlikeItself(elements[i]); }
    case SetOf(elements) => forall i | 0 <= i < |elements| ensures Conversion.Alike(elements[i], elements[i]) { AlikeItself(elements[i]); }
    case MapOf(keys, values) =>
      forall i | 0 <= i < |keys| ensures Conversion.Alike(keys[i], keys[i]) { AlikeItself(keys[i]); }
      forall i | 0 <= i < |values| ensures Conversion.Alike(values[i], values[i]) { AlikeItself(values[i]); }
    case Closure(_, _, f) =>
      forall x | x in f.bindings ensures Conversion.Alike(f.bindings[x], f.bindings[x]) { AlikeItself(f.bindings[x]); }
    case _ =>
  }

  /** Nothing in it is a closure. */
  predicate IsData(v: Value) {
    match v
    case Record(_, fields) => forall i :: 0 <= i < |fields| ==> IsData(fields[i])
    case PresentOf(value) => IsData(value)
    case Members(members) => forall i :: 0 <= i < |members| ==> IsData(members[i])
    case GrowingOf(elements) => forall i :: 0 <= i < |elements| ==> IsData(elements[i])
    case Elements(elements) => forall i :: 0 <= i < |elements| ==> IsData(elements[i])
    case SetOf(elements) => forall i :: 0 <= i < |elements| ==> IsData(elements[i])
    case MapOf(keys, values) =>
      (forall i :: 0 <= i < |keys| ==> IsData(keys[i])) && forall i :: 0 <= i < |values| ==> IsData(values[i])
    case Closure(_, _, _) => false
    case _ => true
  }

  /** Of data, being alike is being the same. */
  lemma {:induction false} AlikeDataIsSame(a: Value, b: Value)
    requires IsData(a)
    ensures Conversion.Alike(a, b) <==> a == b
    decreases a, 1
  {
    AlikeItself(a);
    if Conversion.Alike(a, b) {
      match a
      case Record(_, fields) => AllAlikeDataIsSame(a, fields, b.fields);
      case PresentOf(value) => AlikeDataIsSame(value, b.value);
      case Members(members) => AllAlikeDataIsSame(a, members, b.members);
      case GrowingOf(elements) => AllAlikeDataIsSame(a, elements, b.elements);
      case Elements(elements) => AllAlikeDataIsSame(a, elements, b.elements);
      case SetOf(elements) => AllAlikeDataIsSame(a, elements, b.elements);
      case MapOf(keys, values) =>
        AllAlikeDataIsSame(a, keys, b.keys);
        AllAlikeDataIsSame(a, values, b.values);
      case _ =>
    }
  }

  lemma {:induction false} AllAlikeDataIsSame(of: Value, a: seq<Value>, b: seq<Value>)
    requires forall i :: 0 <= i < |a| ==> a[i] < of && IsData(a[i])
    requires Conversion.AllAlike(a, b)
    ensures a == b
    decreases of, 0
  {
    forall i | 0 <= i < |a| ensures a[i] == b[i] { AlikeDataIsSame(a[i], b[i]); }
  }

  /** A behavior of an accepted document, run with closures that carry only what was planned, takes no
      step it cannot take, reaches no capability it was not handed, and ends as the document run
      lexically does: in the very value, where that is data. */
  lemma LoweredIsSound(w: World, k: nat, declared: string, capabilities: seq<Capability>, arguments: seq<Value>)
    requires Soundness.Stated(w) && Conversion.Respects(w)
    requires declared in w.targets && !w.targets[declared].kind.Injected?
    requires StandFor(w, capabilities, w.targets[declared].requirements)
    requires AllOf(w, k, arguments, w.targets[declared].takes)
    ensures var lexical := RunBehavior(Lexical, w, k, declared, capabilities, arguments);
            var planned := RunBehavior(Conversion.ByPlan, w, k, declared, capabilities, arguments);
            && !planned.Stuck? && Conversion.Same(lexical, planned)
            && (lexical.Answered? ==> Of(w, lexical.left, lexical.value, w.targets[declared].answers))
            && (!lexical.Answered? || IsData(lexical.value) ==> planned == lexical)
  {
    Soundness.SoundBehavior(w, k, declared, capabilities, arguments);
    forall i | 0 <= i < |arguments| ensures Conversion.Alike(arguments[i], arguments[i]) { AlikeItself(arguments[i]); }
    Conversion.ConvertsBehavior(w, k, declared, capabilities, arguments, arguments);
    var lexical := RunBehavior(Lexical, w, k, declared, capabilities, arguments);
    var planned := RunBehavior(Conversion.ByPlan, w, k, declared, capabilities, arguments);
    if lexical.Answered? && IsData(lexical.value) { AlikeDataIsSame(lexical.value, planned.value); }
  }
}
