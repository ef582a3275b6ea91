/** The walk that holds a body to what it says, as it is carried out (`Walk` and `Owed` in
    native/crates/compiler/src/coherent.rs): what is in force is one map entered and left in place,
    and whether one type stands as another is not asked where it is found but owed, and asked of all
    of them afterwards. */
module Checking {
  import opened Options
  import opened Transport
  import opened Declarations
  import opened Growing
  import opened Machine
  import opened Coherence

  // ----- what is owed -----

  datatype Owing = Owing(actual: Ty, expected: Ty)

  ghost predicate AllFit(d: Declared, owed: seq<Owing>) {
    forall i :: 0 <= i < |owed| ==> Fits(d, owed[i].actual, owed[i].expected)
  }

  class Owed {
    var fits: seq<Owing>

    constructor ()
      ensures fits == []
    {
      fits := [];
    }

    method Fit(actual: Ty, expected: Ty)
      modifies this
      ensures fits == old(fits) + [Owing(actual, expected)]
      ensures forall d :: AllFit(d, fits) <==> AllFit(d, old(fits)) && Fits(d, actual, expected)
    {
      fits := fits + [Owing(actual, expected)];
      forall d ensures AllFit(d, fits) <==> AllFit(d, old(fits)) && Fits(d, actual, expected) {
        var last := |fits| - 1;
        assert fits[last] == Owing(actual, expected);
        assert forall i :: 0 <= i < last ==> fits[i] == old(fits)[i];
      }
    }

    /** The second pass. */
    method Settle(d: Declared) returns (ok: bool)
      ensures ok <==> AllFit(d, fits)
    {
      for i := 0 to |fits|
        invariant AllFit(d, fits[..i])
      {
        if !FitsToward(d, fits[i].actual, fits[i].expected, true) {
          assert !Fits(d, fits[i].actual, fits[i].expected);
          return false;
        }
      }
      assert fits[..|fits|] == fits;
      return true;
    }
  }

  /** What a pass comes to: refused, and then what it reads does not stand; or not refused, and then
      it stands exactly where everything it went on to owe fits. */
  ghost predicate Comes(d: Declared, before: seq<Owing>, after: seq<Owing>, ok: bool, stands: bool) {
    && (!ok ==> !stands)
    && (ok ==> (AllFit(d, after) <==> AllFit(d, before) && stands))
  }

  // ----- slots: where each child of a node stands -----

  datatype Slot = Typed(child: Node, takes: Ty) | Untyped(child: Node)

  function Zipped(nodes: seq<Node>, tys: seq<Ty>): seq<Slot> {
    var n := if |nodes| < |tys| then |nodes| else |tys|;
    seq(n, i requires 0 <= i < n => Typed(nodes[i], tys[i]))
  }

  function Parameters(w: World, reaches: Reaches, arguments: seq<Node>, ty: Ty): Option<seq<Ty>> {
    match reaches
    case Behavior(declared) => if declared in w.targets then Some(w.targets[declared].takes) else None
    case Helper(reached) =>
      if reached in w.helpers && TypedAs(arguments, w.helpers[reached].takes) && ty == w.helpers[reached].body.ty
      then Some(w.helpers[reached].takes) else None
    case Kernel(_, settled) => Some(settled)
    case GrowList => Some([ty, ty])
    case PutMap => if ty.Map? then Some([ty, ty.key, ty.value]) else None
  }

  function Slots(w: World, node: Node): Option<seq<Slot>> {
    match node
    case Construct(declared, values, _) =>
      if declared in w.declared then Some(Zipped(values, TypesOf(FieldsOf(w.declared[declared])))) else None
    case Attempt(declared, values, _, _, built, departures, ty) =>
      if declared in w.declared then
        Some(Zipped(values, TypesOf(FieldsOf(w.declared[declared]))) + [Typed(built, ty)]
             + seq(|departures|, i requires 0 <= i < |departures| => Typed(departures[i].body, ty)))
      else None
    case FieldOf(target, _, _) => Some([Untyped(target)])
    case Let(_, binds, value, body, ty) => Some([Typed(value, binds), Typed(body, ty)])
    case If(cond, yes, no, ty) => Some([Typed(cond, TRUTH), Typed(yes, ty), Typed(no, ty)])
    case Match(subject, arms, ty) =>
      Some([Untyped(subject)] + seq(|arms|, i requires 0 <= i < |arms| => Typed(arms[i].body, ty)))
    case PresentNode(value, ty) => if ty.Optional? then Some([Typed(value, ty.held)]) else None
    case TupleNode(nodes, ty) => if ty.Tuple? && |nodes| == |ty.members| then Some(Zipped(nodes, ty.members)) else None
    case Member(tuple, _, _) => Some([Untyped(tuple)])
    case ListNode(nodes, ty) =>
      if ty.List? then Some(seq(|nodes|, i requires 0 <= i < |nodes| => Typed(nodes[i], ty.element))) else None
    case Call(reaches, arguments, ty) =>
      (match Parameters(w, reaches, arguments, ty)
       case Some(takes) => Some(Zipped(arguments, takes))
       case None => None)
    case Walk(_, around, _, _, body, takes, answers, walked, from, _) =>
      if |takes| != 2 then None
      else
        Some(seq(|around|, i requires 0 <= i < |around| => Typed(around[i].value, around[i].binds))
             + [Typed(body, answers), Typed(walked, List(takes[1])), Typed(from, Prim(IntPrim))])
    case Block(_, _, body, ty) => if ty.Fn? then Some([Typed(body, ty.answers)]) else None
    case Apply(applied, arguments, _) =>
      if applied.ty.Fn? then Some([Untyped(applied)] + Zipped(arguments, applied.ty.takes)) else None
    case Widen(value, _) => Some([Untyped(value)])
    case _ => Some([])
  }

  predicate HeldAt(slot: Slot) {
    slot.Typed? ==> slot.child.ty == slot.takes
  }

  predicate SlotsHold(w: World, node: Node) {
    Slots(w, node).Some? && forall i :: 0 <= i < |Slots(w, node).value| ==> HeldAt(Slots(w, node).value[i])
  }

  // ----- the relations of one node, its children's types taken as they are -----

  predicate CallRelates(w: World, required: seq<string>, reaches: Reaches, arguments: seq<Node>, ty: Ty) {
    && Parameters(w, reaches, arguments, ty).Some?
    && |arguments| == |Parameters(w, reaches, arguments, ty).value|
    && match reaches
       case Behavior(declared) => ReachedAsConstructed(w, required, declared) && ty == w.targets[declared].answers
       case Helper(_) => true
       case Kernel(kernel, settled) => w.settles(kernel, settled, ty)
       case GrowList => ty.List?
       case PutMap => true
  }

  predicate ArmRelates(w: World, required: seq<string>, scope: Scope, subject: Ty, arm: Arm) {
    && arm.selects != [] && TestsStand(w.declared, subject, arm.selects)
    && ArmBinds(w.declared, subject, arm.selects, arm.binding)
    && ArmScope(scope, arm.binding).Some?
    && Accepts(w, required, ArmScope(scope, arm.binding).value, arm.body)
  }

  /** A walk's step from what is bound around it at `at` on. */
  predicate StepRelates(w: World, required: seq<string>, scope: Scope, node: Node, at: nat)
    requires node.Walk? && at <= |node.around| && |node.takes| == 2
    decreases |node.around| - at
  {
    if at == |node.around| then
      var stepping := Entering(scope, [node.grown, node.each], node.takes);
      stepping.Some? && Accepts(w, required, stepping.value, node.body)
    else
      var first := node.around[at];
      && Accepts(w, required, scope, first.value) && first.binding !in scope
      && StepRelates(w, required, scope[first.binding := first.binds], node, at + 1)
  }

  predicate Relates(w: World, required: seq<string>, scope: Scope, node: Node) {
    match node
    case Construct(declared, values, ty) =>
      && ty == Ref(Declared(declared)) && declared in w.declared && IsBuilt(w.declared[declared])
      && |values| == |FieldsOf(w.declared[declared])| && AcceptsAll(w, required, scope, values)
    case Attempt(declared, values, binding, binds, built, departures, _) =>
      && declared in w.declared && IsBuilt(w.declared[declared])
      && |values| == |FieldsOf(w.declared[declared])| && binds == Ref(Declared(declared))
      && ClausesOf(w.declared[declared]) != [] && DeparturesTaken(ClausesOf(w.declared[declared]), departures)
      && AcceptsAll(w, required, scope, values)
      && binding !in scope && Accepts(w, required, scope[binding := binds], built)
      && forall i :: 0 <= i < |departures| ==> Accepts(w, required, scope, departures[i].body)
    case Let(binding, binds, value, body, _) =>
      Accepts(w, required, scope, value) && binding !in scope && Accepts(w, required, scope[binding := binds], body)
    case If(cond, yes, no, _) =>
      Accepts(w, required, scope, cond) && Accepts(w, required, scope, yes) && Accepts(w, required, scope, no)
    case Match(subject, arms, _) =>
      && Accepts(w, required, scope, subject)
      && forall i :: 0 <= i < |arms| ==> ArmRelates(w, required, scope, subject.ty, arms[i])
    case PresentNode(value, _) => Accepts(w, required, scope, value)
    case TupleNode(nodes, _) => AcceptsAll(w, required, scope, nodes)
    case ListNode(nodes, _) => AcceptsAll(w, required, scope, nodes)
    case Call(reaches, arguments, ty) =>
      AcceptsAll(w, required, scope, arguments) && CallRelates(w, required, reaches, arguments, ty)
    case Walk(builds, _, _, _, _, takes, answers, walked, from, ty) =>
      && |takes| == 2 && BuildsA(builds, takes[0]) && ty == answers && BuildsA(builds, ty)
      && StepRelates(w, required, scope, node, 0)
      && Accepts(w, required, scope, walked) && Accepts(w, required, scope, from)
    case Block(_, parameters, body, ty) =>
      && ty.Fn? && |parameters| == |ty.takes|
      && (var inner := Entering(scope, parameters, ty.takes); inner.Some? && Accepts(w, required, inner.value, body))
    case Apply(applied, arguments, ty) =>
      && Accepts(w, required, scope, applied) && AcceptsAll(w, required, scope, arguments)
      && applied.ty.Fn? && |arguments| == |applied.ty.takes| && ty == applied.ty.answers
    case _ => Accepts(w, required, scope, node)
  }

  function NodesIn(slots: seq<Slot>): seq<Node> {
    seq(|slots|, i requires 0 <= i < |slots| => slots[i].child)
  }

  lemma NodesInAppend(a: seq<Slot>, b: seq<Slot>)
    ensures NodesIn(a + b) == NodesIn(a) + NodesIn(b)
  {
  }

  /** Wherever the relations of a node stand, the children in its slots are its children as a sequence:
      the equality the walk asserts before it reads the table holds. */
  lemma SlotsNameTheChildren(w: World, required: seq<string>, scope: Scope, node: Node)
    requires Relates(w, required, scope, node) && Slots(w, node).Some?
    ensures NodesIn(Slots(w, node).value) == Children(node)
  {
    match node
    case Attempt(_, _, _, _, _, _, _) => SlotsNameAttemptChildren(w, required, scope, node);
    case Match(subject, arms, ty) =>
      NodesInAppend([Untyped(subject)], seq(|arms|, i requires 0 <= i < |arms| => Typed(arms[i].body, ty)));
      assert NodesIn([Untyped(subject)]) == [subject];
    case Walk(_, _, _, _, _, _, _, _, _, _) => SlotsNameStepChildren(w, required, scope, node);
    case Apply(applied, arguments, _) =>
      NodesInAppend([Untyped(applied)], Zipped(arguments, applied.ty.takes));
      assert NodesIn([Untyped(applied)]) == [applied];
    case _ => SlotsNameFewChildren(w, required, scope, node);
  }

  lemma SlotsNameAttemptChildren(w: World, required: seq<string>, scope: Scope, node: Node)
    requires node.Attempt? && Relates(w, required, scope, node) && Slots(w, node).Some?
    ensures NodesIn(Slots(w, node).value) == Children(node)
  {
    var built, departures, ty := node.built, node.departures, node.ty;
    var zipped := Zipped(node.values, TypesOf(FieldsOf(w.declared[node.declared])));
    assert NodesIn(zipped) == node.values;
    NodesInAppend(zipped, [Typed(built, ty)]);
    NodesInAppend(zipped + [Typed(built, ty)],
                  seq(|departures|, i requires 0 <= i < |departures| => Typed(departures[i].body, ty)));
    assert NodesIn([Typed(built, ty)]) == [built];
  }

  lemma SlotsNameStepChildren(w: World, required: seq<string>, scope: Scope, node: Node)
    requires node.Walk? && Relates(w, required, scope, node) && Slots(w, node).Some?
    ensures NodesIn(Slots(w, node).value) == Children(node)
  {
    var around := node.around;
    var rest := [Typed(node.body, node.answers), Typed(node.walked, List(node.takes[1])), Typed(node.from, Prim(IntPrim))];
    NodesInAppend(seq(|around|, i requires 0 <= i < |around| => Typed(around[i].value, around[i].binds)), rest);
    assert NodesIn(rest) == [node.body, node.walked, node.from];
  }

  lemma SlotsNameFewChildren(w: World, required: seq<string>, scope: Scope, node: Node)
    requires !node.Attempt? && !node.Match? && !node.Walk? && !node.Apply?
    requires Relates(w, required, scope, node) && Slots(w, node).Some?
    ensures NodesIn(Slots(w, node).value) == Children(node)
  {
  }

  lemma ZippedHold(nodes: seq<Node>, tys: seq<Ty>)
    requires |nodes| == |tys|
    ensures (forall i :: 0 <= i < |Zipped(nodes, tys)| ==> HeldAt(Zipped(nodes, tys)[i])) <==> TypedAs(nodes, tys)
  {
    assert forall i :: 0 <= i < |nodes| ==> Zipped(nodes, tys)[i] == Typed(nodes[i], tys[i]);
  }

  ghost predicate AllHeld(slots: seq<Slot>) {
    forall i :: 0 <= i < |slots| ==> HeldAt(slots[i])
  }

  lemma HeldAppend(a: seq<Slot>, b: seq<Slot>)
    ensures AllHeld(a + b) <==> AllHeld(a) && AllHeld(b)
  {
    if AllHeld(a + b) {
      forall i | 0 <= i < |a| ensures HeldAt(a[i]) { assert (a + b)[i] == a[i]; }
      forall i | 0 <= i < |b| ensures HeldAt(b[i]) { assert (a + b)[|a| + i] == b[i]; }
    }
  }

  /** A node stands exactly where its relations do and each child is of its slot. */
  lemma RelationsAndSlots(w: World, required: seq<string>, scope: Scope, node: Node)
    ensures Accepts(w, required, scope, node) <==> Relates(w, required, scope, node) && SlotsHold(w, node)
  {
    match node
    case Construct(declared, values, _) => RelatedConstruct(w, required, scope, node);
    case Attempt(_, _, _, _, _, _, _) => RelatedAttempt(w, required, scope, node);
    case Let(_, _, _, _, _) => RelatedPair(w, required, scope, node);
    case If(_, _, _, _) => RelatedPair(w, required, scope, node);
    case Match(_, _, _) => RelatedMatch(w, required, scope, node);
    case PresentNode(_, _) => RelatedPair(w, required, scope, node);
    case TupleNode(_, _) => RelatedConstruct(w, required, scope, node);
    case ListNode(_, _) => RelatedConstruct(w, required, scope, node);
    case Call(_, _, _) => RelatedCall(w, required, scope, node);
    case Walk(_, _, _, _, _, _, _, _, _, _) => RelatedWalk(w, required, scope, node);
    case Block(_, _, _, _) => RelatedPair(w, required, scope, node);
    case Apply(_, _, _) => RelatedCall(w, required, scope, node);
    case FieldOf(target, _, _) => assert AllHeld([Untyped(target)]);
    case Member(tuple, _, _) => assert AllHeld([Untyped(tuple)]);
    case Widen(value, _) => assert AllHeld([Untyped(value)]);
    case _ =>
  }

  lemma RelatedConstruct(w: World, required: seq<string>, scope: Scope, node: Node)
    requires node.Construct? || node.TupleNode? || node.ListNode?
    ensures Accepts(w, required, scope, node) <==> Relates(w, required, scope, node) && SlotsHold(w, node)
  {
    match node
    case Construct(declared, values, _) =>
      if declared in w.declared && |values| == |FieldsOf(w.declared[declared])| {
        ZippedHold(values, TypesOf(FieldsOf(w.declared[declared])));
      }
    case TupleNode(nodes, ty) => if ty.Tuple? && |nodes| == |ty.members| { ZippedHold(nodes, ty.members); }
    case ListNode(nodes, ty) =>
      if ty.List? {
        var slots := Slots(w, node).value;
        assert forall i :: 0 <= i < |nodes| ==> (HeldAt(slots[i]) <==> nodes[i].ty == ty.element);
      }
  }

  lemma RelatedPair(w: World, required: seq<string>, scope: Scope, node: Node)
    requires node.Let? || node.If? || node.PresentNode? || node.Block?
    ensures Accepts(w, required, scope, node) <==> Relates(w, required, scope, node) && SlotsHold(w, node)
  {
    match node
    case Let(_, binds, value, body, ty) =>
      HeldAppend([Typed(value, binds)], [Typed(body, ty)]);
      assert AllHeld([Typed(value, binds)]) <==> HeldAt([Typed(value, binds)][0]);
      assert AllHeld([Typed(body, ty)]) <==> HeldAt([Typed(body, ty)][0]);
      assert [Typed(value, binds)] + [Typed(body, ty)] == Slots(w, node).value;
    case If(cond, yes, no, ty) =>
      var slots := Slots(w, node).value;
      assert AllHeld(slots) <==> HeldAt(slots[0]) && HeldAt(slots[1]) && HeldAt(slots[2]);
    case PresentNode(value, ty) => if ty.Optional? { assert HeldAt([Typed(value, ty.held)][0]) <==> value.ty == ty.held; }
    case Block(_, _, body, ty) => if ty.Fn? { assert HeldAt([Typed(body, ty.answers)][0]) <==> body.ty == ty.answers; }
  }

  lemma RelatedAttempt(w: World, required: seq<string>, scope: Scope, node: Node)
    requires node.Attempt?
    ensures Accepts(w, required, scope, node) <==> Relates(w, required, scope, node) && SlotsHold(w, node)
  {
    var d, departures, ty := node.declared, node.departures, node.ty;
    if d in w.declared && |node.values| == |FieldsOf(w.declared[d])| {
      var tys := TypesOf(FieldsOf(w.declared[d]));
      ZippedHold(node.values, tys);
      var bodies := seq(|departures|, i requires 0 <= i < |departures| => Typed(departures[i].body, ty));
      HeldAppend(Zipped(node.values, tys) + [Typed(node.built, ty)], bodies);
      HeldAppend(Zipped(node.values, tys), [Typed(node.built, ty)]);
      assert AllHeld([Typed(node.built, ty)]) <==> HeldAt([Typed(node.built, ty)][0]);
      assert AllHeld(bodies) <==> forall i :: 0 <= i < |departures| ==> departures[i].body.ty == ty by {
        assert forall i :: 0 <= i < |departures| ==> (HeldAt(bodies[i]) <==> departures[i].body.ty == ty);
      }
    }
  }

  lemma RelatedMatch(w: World, required: seq<string>, scope: Scope, node: Node)
    requires node.Match?
    ensures Accepts(w, required, scope, node) <==> Relates(w, required, scope, node) && SlotsHold(w, node)
  {
    var arms, ty, subject := node.arms, node.ty, node.subject.ty;
    var bodies := seq(|arms|, i requires 0 <= i < |arms| => Typed(arms[i].body, ty));
    HeldAppend([Untyped(node.subject)], bodies);
    assert AllHeld([Untyped(node.subject)]);
    assert forall i :: 0 <= i < |arms| ==> (HeldAt(bodies[i]) <==> arms[i].body.ty == ty);
    assert forall i :: 0 <= i < |arms| ==>
      (AcceptsArm(w, required, scope, subject, arms[i], ty) <==>
        ArmRelates(w, required, scope, subject, arms[i]) && HeldAt(bodies[i]));
  }

  lemma RelatedCall(w: World, required: seq<string>, scope: Scope, node: Node)
    requires node.Call? || node.Apply?
    ensures Accepts(w, required, scope, node) <==> Relates(w, required, scope, node) && SlotsHold(w, node)
  {
    match node
    case Call(reaches, arguments, ty) =>
      var takes := Parameters(w, reaches, arguments, ty);
      if takes.Some? && |arguments| == |takes.value| { ZippedHold(arguments, takes.value); }
    case Apply(applied, arguments, _) =>
      if applied.ty.Fn? && |arguments| == |applied.ty.takes| {
        ZippedHold(arguments, applied.ty.takes);
        HeldAppend([Untyped(applied)], Zipped(arguments, applied.ty.takes));
        assert AllHeld([Untyped(applied)]);
      }
  }

  /** What is bound around a step is of what it is bound as, from `at` on. */
  predicate AroundHeld(node: Node, at: nat)
    requires node.Walk? && at <= |node.around|
  {
    forall i :: at <= i < |node.around| ==> node.around[i].value.ty == node.around[i].binds
  }

  lemma {:induction false} RelatedStep(w: World, required: seq<string>, scope: Scope, node: Node, at: nat)
    requires node.Walk? && at <= |node.around| && |node.takes| == 2
    ensures StepRelates(w, required, scope, node, at) && AroundHeld(node, at) <==>
      match AroundScope(w, required, scope, node.around[at..])
      case None => false
      case Some(inner) =>
        var stepping := Entering(inner, [node.grown, node.each], node.takes);
        stepping.Some? && Accepts(w, required, stepping.value, node.body)
    decreases |node.around| - at
  {
    if at < |node.around| {
      var first := node.around[at];
      var rest := node.around[at..];
      assert rest[0] == first && rest[1..] == node.around[at + 1..];
      RelatedStep(w, required, scope[first.binding := first.binds], node, at + 1);
    }
  }

  lemma RelatedWalk(w: World, required: seq<string>, scope: Scope, node: Node)
    requires node.Walk?
    ensures Accepts(w, required, scope, node) <==> Relates(w, required, scope, node) && SlotsHold(w, node)
  {
    if |node.takes| == 2 {
      var around := node.around;
      RelatedStep(w, required, scope, node, 0);
      assert around[0..] == around;
      var values := seq(|around|, i requires 0 <= i < |around| => Typed(around[i].value, around[i].binds));
      var rest := [Typed(node.body, node.answers), Typed(node.walked, List(node.takes[1])), Typed(node.from, Prim(IntPrim))];
      HeldAppend(values, rest);
      assert AllHeld(values) <==> AroundHeld(node, 0) by {
        assert forall i :: 0 <= i < |around| ==> (HeldAt(values[i]) <==> around[i].value.ty == around[i].binds);
      }
      assert AllHeld(rest) <==> HeldAt(rest[0]) && HeldAt(rest[1]) && HeldAt(rest[2]);
    }
  }

  // ----- the walk -----

  lemma {:induction false} EnteringNone(scope: Scope, numbers: seq<nat>, tys: seq<Ty>, i: nat)
    requires |numbers| == |tys| && i <= |numbers| && Entering(scope, numbers[..i], tys[..i]).None?
    ensures Entering(scope, numbers, tys).None?
    decreases |numbers|
  {
    if i == |numbers| {
      assert numbers[..i] == numbers && tys[..i] == tys;
    } else {
      var last := |numbers| - 1;
      assert numbers[..last][..i] == numbers[..i] && tys[..last][..i] == tys[..i];
      EnteringNone(scope, numbers[..last], tys[..last], i);
    }
  }

  /** What one more number in force comes to. */
  lemma EnteringNext(scope: Scope, numbers: seq<nat>, tys: seq<Ty>, i: nat)
    requires |numbers| == |tys| && i < |numbers| && Entering(scope, numbers[..i], tys[..i]).Some?
    ensures var inner := Entering(scope, numbers[..i], tys[..i]).value;
            Entering(scope, numbers[..i + 1], tys[..i + 1])
            == if numbers[i] in inner then None else Some(inner[numbers[i] := tys[i]])
  {
    assert numbers[..i + 1][..i] == numbers[..i] && tys[..i + 1][..i] == tys[..i];
  }

  class BodyWalk {
    const w: World
    /** The names a call may go through a capability to. */
    const required: seq<string>
    const owed: Owed
    /** What each binding in force is in force at. */
    var bound: Scope

    constructor (w: World, required: seq<string>, owed: Owed)
      ensures this.w == w && this.required == required && this.owed == owed && bound == map[]
    {
      this.w, this.required, this.owed, bound := w, required, owed, map[];
    }

    /** The numbers of `entered` taken from `bound`, from the back of the sequence to its front. */
    method Leave(entered: seq<nat>)
      modifies this
      ensures bound == old(bound) - (set x | x in entered)
    {
      var i := |entered|;
      while i > 0
        invariant 0 <= i <= |entered| && bound == old(bound) - (set x | x in entered[i..])
      {
        i := i - 1;
        assert entered[i..] == [entered[i]] + entered[i + 1..];
        bound := bound - {entered[i]};
      }
      assert entered[0..] == entered;
    }

    /** `node` read with each of `numbers` in force, and gone again afterwards, however it came out:
        one already in force is refused, so what is taken out is what was put in. */
    method Under(numbers: seq<nat>, tys: seq<Ty>, node: Node) returns (ok: bool)
      requires |numbers| == |tys|
      modifies this, owed
      ensures bound == old(bound)
      ensures var inner := Entering(bound, numbers, tys);
              Comes(w.declared, old(owed.fits), owed.fits, ok, inner.Some? && Accepts(w, required, inner.value, node))
      decreases node, 6
    {
      var entered: seq<nat> := [];
      for i := 0 to |numbers|
        invariant entered == numbers[..i] && owed.fits == old(owed.fits)
        invariant Entering(old(bound), numbers[..i], tys[..i]) == Some(bound)
        invariant bound - (set x | x in entered) == old(bound)
      {
        EnteringNext(old(bound), numbers, tys, i);
        if numbers[i] in bound {
          EnteringNone(old(bound), numbers, tys, i + 1);
          Leave(entered);
          return false;
        }
        bound := bound[numbers[i] := tys[i]];
        entered := entered + [numbers[i]];
        assert numbers[..i + 1] == entered;
      }
      assert numbers[..|numbers|] == numbers && tys[..|tys|] == tys;
      ok := Node(node);
      Leave(entered);
    }

    /** The whole tree at `node`: `bound` comes back as it was, `false` says `Accepts` is false, and after
        `true` it is decided by the fits left owed. */
    method Node(node: Node) returns (ok: bool)
      modifies this, owed
      ensures bound == old(bound)
      ensures Comes(w.declared, old(owed.fits), owed.fits, ok, Accepts(w, required, bound, node))
      decreases node, 5
    {
      ok := Relations(node);
      RelationsAndSlots(w, required, bound, node);
      if ok { ok := HoldSlots(node); }
    }

    method HoldSlots(node: Node) returns (ok: bool)
      ensures ok <==> SlotsHold(w, node)
    {
      var slots := Slots(w, node);
      if slots.None? { return false; }
      for i := 0 to |slots.value|
        invariant forall j :: 0 <= j < i ==> HeldAt(slots.value[j])
      {
        if slots.value[i].Typed? && slots.value[i].child.ty != slots.value[i].takes {
          assert !HeldAt(slots.value[i]);
          return false;
        }
      }
      return true;
    }

    method Relations(node: Node) returns (ok: bool)
      modifies this, owed
      ensures bound == old(bound)
      ensures Comes(w.declared, old(owed.fits), owed.fits, ok, Relates(w, required, bound, node))
      decreases node, 4
    {
      match node
      case Construct(_, _, _) => ok := RelateConstruct(node);
      case Attempt(_, _, _, _, _, _, _) => ok := RelateAttempt(node);
      case FieldOf(_, _, _) => ok := RelateField(node);
      case Let(_, _, _, _, _) => ok := RelateLet(node);
      case If(_, _, _, _) => ok := RelateFork(node);
      case Match(_, _, _) => ok := RelateMatch(node);
      case PresentNode(value, _) => ok := Node(value);
      case TupleNode(nodes, _) => ok := NodeAll(nodes);
      case Member(_, _, _) => ok := RelateMember(node);
      case ListNode(nodes, _) => ok := NodeAll(nodes);
      case Call(_, _, _) => ok := RelateCall(node);
      case Walk(_, _, _, _, _, _, _, _, _, _) => ok := RelateWalk(node);
      case Block(_, _, _, _) => ok := RelateBlock(node);
      case Apply(_, _, _) => ok := RelateApply(node);
      case Widen(_, _) => ok := RelateWiden(node);
      case Literal(_, _) => ok := RelateLeaf(node);
      case Read(_, _) => ok := RelateLeaf(node);
      case UnitNode(_, _) => ok := RelateLeaf(node);
      case Unreachable(_) => ok := RelateLeaf(node);
      case AbsentNode(_) => ok := RelateLeaf(node);
    }

    /** A node with no child. */
    method RelateLeaf(node: Node) returns (ok: bool)
      requires node.Literal? || node.Read? || node.UnitNode? || node.Unreachable? || node.AbsentNode?
      ensures Comes(w.declared, owed.fits, owed.fits, ok, Relates(w, required, bound, node))
    {
      match node
      case Literal(scalar, ty) => ok := ty == Prim(PrimOf(scalar));
      case Read(binding, ty) => ok := binding in bound && ty == bound[binding];
      case UnitNode(unit, ty) =>
        ok := ty == Ref(unit) && (unit.Declared? ==> unit.key in w.declared && w.declared[unit.key].UnitOf?);
      case Unreachable(_) => ok := true;
      case AbsentNode(ty) => ok := ty.Optional?;
    }

    method NodeAll(nodes: seq<Node>) returns (ok: bool)
      modifies this, owed
      ensures bound == old(bound)
      ensures Comes(w.declared, old(owed.fits), owed.fits, ok, AcceptsAll(w, required, bound, nodes))
      decreases nodes, 0
    {
      for i := 0 to |nodes|
        invariant bound == old(bound)
        invariant AllFit(w.declared, owed.fits) <==>
          AllFit(w.declared, old(owed.fits)) && forall j :: 0 <= j < i ==> Accepts(w, required, bound, nodes[j])
      {
        ok := Node(nodes[i]);
        if !ok { return; }
      }
      ok := true;
    }

    method RelateConstruct(node: Node) returns (ok: bool)
      requires node.Construct?
      modifies this, owed
      ensures bound == old(bound)
      ensures Comes(w.declared, old(owed.fits), owed.fits, ok, Relates(w, required, bound, node))
      decreases node, 2
    {
      var d := node.declared;
      if node.ty != Ref(Declared(d)) || d !in w.declared || !IsBuilt(w.declared[d]) { return false; }
      if |FieldsOf(w.declared[d])| != |node.values| { return false; }
      ok := NodeAll(node.values);
    }

    method RelateAttempt(node: Node) returns (ok: bool)
      requires node.Attempt?
      modifies this, owed
      ensures bound == old(bound)
      ensures Comes(w.declared, old(owed.fits), owed.fits, ok, Relates(w, required, bound, node))
      decreases node, 2
    {
      var d := node.declared;
      if d !in w.declared || !IsBuilt(w.declared[d]) { return false; }
      if |FieldsOf(w.declared[d])| != |node.values| || node.binds != Ref(Declared(d)) { return false; }
      var clauses := ClausesOf(w.declared[d]);
      if clauses == [] || !DeparturesTaken(clauses, node.departures) { return false; }
      ok := NodeAll(node.values);
      if !ok { return; }
      UnderOne(bound, node.binding, node.binds);
      ok := Under([node.binding], [node.binds], node.built);
      if !ok { return; }
      ok := RelateDepartures(node);
    }

    method RelateDepartures(node: Node) returns (ok: bool)
      requires node.Attempt?
      modifies this, owed
      ensures bound == old(bound)
      ensures Comes(w.declared, old(owed.fits), owed.fits, ok,
                    forall i :: 0 <= i < |node.departures| ==> Accepts(w, required, bound, node.departures[i].body))
      decreases node, 1
    {
      var departures := node.departures;
      for i := 0 to |departures|
        invariant bound == old(bound)
        invariant AllFit(w.declared, owed.fits) <==>
          AllFit(w.declared, old(owed.fits)) && forall j :: 0 <= j < i ==> Accepts(w, required, bound, departures[j].body)
      {
        assert departures[i].body < departures[i];
        ok := Node(departures[i].body);
        if !ok { return; }
      }
      ok := true;
    }

    method RelateField(node: Node) returns (ok: bool)
      requires node.FieldOf?
      modifies this, owed
      ensures bound == old(bound)
      ensures Comes(w.declared, old(owed.fits), owed.fits, ok, Relates(w, required, bound, node))
      decreases node, 2
    {
      ok := Node(node.target);
      if !ok { return; }
      ok := FieldRelates(node.target.ty, node.name, node.ty);
    }

    /** Decides `FieldStands`: over a sum, a loop over its leaves that owes one fit for each. */
    method FieldRelates(of: Ty, name: string, ty: Ty) returns (ok: bool)
      modifies owed
      ensures Comes(w.declared, old(owed.fits), owed.fits, ok, FieldStands(w.declared, of, name, ty))
    {
      if !of.Ref? || !of.named.Declared? || of.named.key !in w.declared { return false; }
      var shape := w.declared[of.named.key];
      if !shape.Sum? {
        var at := PositionOf(FieldsOf(shape), name);
        return at.Some? && ty == FieldsOf(shape)[at.value].ty;
      }
      var cases := LeavesOf(w.declared, [of.named]);
      ok := CaseFieldsRelate(cases, name, ty);
      SumFieldStands(w.declared, of, name, ty);
    }

    method CaseFieldsRelate(cases: seq<Case>, name: string, ty: Ty) returns (ok: bool)
      modifies owed
      ensures Comes(w.declared, old(owed.fits), owed.fits, ok, FieldsLaid(w.declared, cases, name, ty))
    {
      for i := 0 to |cases|
        invariant AllFit(w.declared, owed.fits) <==>
          AllFit(w.declared, old(owed.fits)) && forall j :: 0 <= j < i ==> CaseField(w.declared, cases[j], name, ty)
      {
        if !CaseLays(w.declared, cases[i], name) { return false; }
        var laid := FieldsOf(w.declared[cases[i].key]);
        owed.Fit(laid[PositionOf(laid, name).value].ty, ty);
      }
      ok := true;
    }

    method RelateLet(node: Node) returns (ok: bool)
      requires node.Let?
      modifies this, owed
      ensures bound == old(bound)
      ensures Comes(w.declared, old(owed.fits), owed.fits, ok, Relates(w, required, bound, node))
      decreases node, 2
    {
      ok := Node(node.value);
      if !ok { return; }
      UnderOne(bound, node.binding, node.binds);
      ok := Under([node.binding], [node.binds], node.body);
    }

    method RelateFork(node: Node) returns (ok: bool)
      requires node.If?
      modifies this, owed
      ensures bound == old(bound)
      ensures Comes(w.declared, old(owed.fits), owed.fits, ok, Relates(w, required, bound, node))
      decreases node, 2
    {
      ok := Node(node.cond);
      if !ok { return; }
      ok := Node(node.yes);
      if !ok { return; }
      ok := Node(node.no);
    }

    method RelateMatch(node: Node) returns (ok: bool)
      requires node.Match?
      modifies this, owed
      ensures bound == old(bound)
      ensures Comes(w.declared, old(owed.fits), owed.fits, ok, Relates(w, required, bound, node))
      decreases node, 3
    {
      ok := Node(node.subject);
      if !ok { return; }
      ok := RelateArms(node.subject.ty, node.arms);
    }

    method RelateArms(subject: Ty, arms: seq<Arm>) returns (ok: bool)
      modifies this, owed
      ensures bound == old(bound)
      ensures Comes(w.declared, old(owed.fits), owed.fits, ok,
                    forall i :: 0 <= i < |arms| ==> ArmRelates(w, required, bound, subject, arms[i]))
      decreases arms, 0
    {
      for i := 0 to |arms|
        invariant bound == old(bound)
        invariant AllFit(w.declared, owed.fits) <==>
          AllFit(w.declared, old(owed.fits)) && forall j :: 0 <= j < i ==> ArmRelates(w, required, bound, subject, arms[j])
      {
        ok := RelateArm(subject, arms[i]);
        if !ok { return; }
      }
      ok := true;
    }

    method RelateArm(subject: Ty, arm: Arm) returns (ok: bool)
      modifies this, owed
      ensures bound == old(bound)
      ensures Comes(w.declared, old(owed.fits), owed.fits, ok, ArmRelates(w, required, bound, subject, arm))
      decreases arm, 0
    {
      if arm.selects == [] { return false; }
      ok := RelateTests(subject, arm.selects);
      if !ok { return; }
      assert arm.body < arm;
      if arm.binding.NoName? {
        ok := Node(arm.body);
        return;
      }
      ok := RelateArmBinding(subject, arm.selects, arm.binding);
      if !ok { return; }
      UnderOne(bound, arm.binding.number, arm.binding.readAs);
      ok := Under([arm.binding.number], [arm.binding.readAs], arm.body);
    }

    /** Decides `TestsStand`, owing a fit for every set of atoms. */
    method RelateTests(subject: Ty, selects: seq<Selects>) returns (ok: bool)
      modifies owed
      ensures Comes(w.declared, old(owed.fits), owed.fits, ok, TestsStand(w.declared, subject, selects))
    {
      for i := 0 to |selects|
        invariant AllFit(w.declared, owed.fits) <==>
          AllFit(w.declared, old(owed.fits)) && forall j :: 0 <= j < i ==> TestStands(w.declared, subject, selects[j])
      {
        match selects[i]
        case Which(atoms) =>
          if !AreLeaves(w.declared, atoms) || !HasCases(w.declared, subject) {
            return false;
          }
          owed.Fit(Union(atoms), subject);
        case Held =>
          if !subject.Optional? { return false; }
        case Absence =>
          if !subject.Optional? { return false; }
      }
      ok := true;
    }

    method RelateArmBinding(subject: Ty, selects: seq<Selects>, binding: ArmBinding) returns (ok: bool)
      requires !binding.NoName?
      modifies owed
      ensures Comes(w.declared, old(owed.fits), owed.fits, ok, ArmBinds(w.declared, subject, selects, binding))
    {
      if binding.Payload? {
        return |selects| == 1 && selects[0].Held? && subject.Optional? && binding.readAs == subject.held;
      }
      if |selects| == 1 && selects[0].Held? { return false; }
      if |selects| == 1 && selects[0].Which? {
        owed.Fit(Union(selects[0].atoms), binding.readAs);
        owed.Fit(binding.readAs, subject);
        return true;
      }
      return binding.readAs == subject;
    }

    method RelateMember(node: Node) returns (ok: bool)
      requires node.Member?
      modifies this, owed
      ensures bound == old(bound)
      ensures Comes(w.declared, old(owed.fits), owed.fits, ok, Relates(w, required, bound, node))
      decreases node, 2
    {
      ok := Node(node.tuple);
      if !ok { return; }
      var of := node.tuple.ty;
      ok := of.Tuple? && node.at < |of.members| && node.ty == of.members[node.at];
    }

    method RelateCall(node: Node) returns (ok: bool)
      requires node.Call?
      modifies this, owed
      ensures bound == old(bound)
      ensures Comes(w.declared, old(owed.fits), owed.fits, ok, Relates(w, required, bound, node))
      decreases node, 2
    {
      ok := NodeAll(node.arguments);
      if !ok { return; }
      ok := CallRelates(w, required, node.reaches, node.arguments, node.ty);
    }

    method RelateBlock(node: Node) returns (ok: bool)
      requires node.Block?
      modifies this, owed
      ensures bound == old(bound)
      ensures Comes(w.declared, old(owed.fits), owed.fits, ok, Relates(w, required, bound, node))
      decreases node, 2
    {
      if !node.ty.Fn? || |node.parameters| != |node.ty.takes| { return false; }
      ok := Under(node.parameters, node.ty.takes, node.body);
    }

    method RelateApply(node: Node) returns (ok: bool)
      requires node.Apply?
      modifies this, owed
      ensures bound == old(bound)
      ensures Comes(w.declared, old(owed.fits), owed.fits, ok, Relates(w, required, bound, node))
      decreases node, 2
    {
      ok := Node(node.applied);
      if !ok { return; }
      ok := NodeAll(node.arguments);
      if !ok { return; }
      var of := node.applied.ty;
      ok := of.Fn? && |node.arguments| == |of.takes| && node.ty == of.answers;
    }

    method RelateWiden(node: Node) returns (ok: bool)
      requires node.Widen?
      modifies this, owed
      ensures bound == old(bound)
      ensures Comes(w.declared, old(owed.fits), owed.fits, ok, Relates(w, required, bound, node))
      decreases node, 2
    {
      if node.value.Widen? || node.value.ty == node.ty { return false; }
      ok := Node(node.value);
      if !ok { return; }
      owed.Fit(node.value.ty, node.ty);
    }

    method RelateWalk(node: Node) returns (ok: bool)
      requires node.Walk?
      modifies this, owed
      ensures bound == old(bound)
      ensures Comes(w.declared, old(owed.fits), owed.fits, ok, Relates(w, required, bound, node))
      decreases node, 2
    {
      if |node.takes| != 2 || !BuildsA(node.builds, node.takes[0]) || node.ty != node.answers { return false; }
      if !BuildsA(node.builds, node.ty) { return false; }
      ok := RelateStep(node, 0);
      if !ok { return; }
      ok := Node(node.walked);
      if !ok { return; }
      ok := Node(node.from);
    }

    /** A walk's step from what is bound around it at `at` on, each value read before its binding is
        in force. */
    method RelateStep(node: Node, at: nat) returns (ok: bool)
      requires node.Walk? && at <= |node.around| && |node.takes| == 2
      modifies this, owed
      ensures bound == old(bound)
      ensures Comes(w.declared, old(owed.fits), owed.fits, ok, StepRelates(w, required, bound, node, at))
      decreases node, 1, |node.around| - at
    {
      if at == |node.around| {
        ok := Under([node.grown, node.each], node.takes, node.body);
        return;
      }
      var first := node.around[at];
      assert first.value < first;
      ok := Node(first.value);
      if !ok { return; }
      if first.binding in bound { return false; }
      bound := bound[first.binding := first.binds];
      ok := RelateStep(node, at + 1);
      Leave([first.binding]);
      assert bound == old(bound);
    }
  }

  lemma UnderOne(scope: Scope, number: nat, ty: Ty)
    ensures Entering(scope, [number], [ty]) == if number in scope then None else Some(scope[number := ty])
  {
    assert [number][..0] == [] && [ty][..0] == [];
    assert Entering(scope, [], []) == Some(scope);
  }

  predicate FieldsLaid(d: Declared, cases: seq<Case>, name: string, ty: Ty) {
    forall i :: 0 <= i < |cases| ==> CaseField(d, cases[i], name, ty)
  }

  lemma SumFieldStands(d: Declared, of: Ty, name: string, ty: Ty)
    requires of.Ref? && of.named.Declared? && of.named.key in d && d[of.named.key].Sum?
    ensures FieldStands(d, of, name, ty) <==> FieldsLaid(d, LeavesOf(d, [of.named]), name, ty)
  {
    EachCaseField(d, LeavesOf(d, [of.named]), name, ty);
  }

  lemma EachCaseField(d: Declared, cases: seq<Case>, name: string, ty: Ty)
    ensures CasesField(d, cases, name, ty) <==> FieldsLaid(d, cases, name, ty)
  {
  }

  // ----- compositions -----

  /** One stage after the first, handed what runs. */
  method HoldStage(w: World, stage: Stage, running: Ty, answers: Ty, owed: Owed) returns (ok: bool)
    modifies owed
    ensures ok ==> stage.behavior in w.targets
    ensures Comes(w.declared, old(owed.fits), owed.fits, ok, StageStands(w, stage, running, answers))
  {
    if stage.behavior !in w.targets || |w.targets[stage.behavior].takes| != 1 { return false; }
    var taken := w.targets[stage.behavior].takes[0];
    if stage.routing.OnCases? != SaysItsCase(running) { return false; }
    match stage.routing {
      case Always => owed.Fit(running, taken);
      case OnCases(accepted) =>
        if !AreLeaves(w.declared, accepted) || CasesOf(w.declared, running).None? { return false; }
        owed.Fit(Union(accepted), running);
        owed.Fit(Union(accepted), taken);
        var leaving := Leaving(CasesOf(w.declared, running).value, LeavesOf(w.declared, accepted));
        if leaving != [] { owed.Fit(Union(leaving), answers); }
    }
    ok := true;
  }

  /** Decides `Composes` in one pass over the stages, carrying the type that runs into the next. */
  method HoldComposition(w: World, target: Target, stages: seq<Stage>, owed: Owed) returns (ok: bool)
    modifies owed
    ensures Comes(w.declared, old(owed.fits), owed.fits, ok, Composes(w, target, stages))
  {
    if stages == [] || !stages[0].routing.Always? || stages[0].behavior !in w.targets { return false; }
    if w.targets[stages[0].behavior].takes != target.takes { return false; }
    var running := w.targets[stages[0].behavior].answers;
    for i := 1 to |stages|
      invariant AllFit(w.declared, old(owed.fits)) && Composes(w, target, stages) <==>
        AllFit(w.declared, owed.fits) && ComposesFrom(w, stages[i..], running, target.answers)
      invariant Composes(w, target, stages) ==> ComposesFrom(w, stages[i..], running, target.answers)
    {
      assert stages[i..][0] == stages[i] && stages[i..][1..] == stages[i + 1..];
      ok := HoldStage(w, stages[i], running, target.answers, owed);
      if !ok { return; }
      running := w.targets[stages[i].behavior].answers;
    }
    assert stages[|stages|..] == [];
    owed.Fit(running, target.answers);
    ok := true;
  }

  /** What is handed to each stage out of what the composition requires. */
  method HoldHanded(w: World, requirements: seq<string>, stages: seq<Stage>) returns (ok: bool)
    ensures ok <==> StagesHanded(w, requirements, stages)
  {
    for i := 0 to |stages|
      invariant StagesHanded(w, requirements, stages[..i])
    {
      if stages[i].behavior in w.targets {
        var reached := w.targets[stages[i].behavior];
        var handed :=
          if reached.kind.Injected? then stages[i].behavior in requirements
          else forall r <- reached.requirements :: r in requirements;
        if !handed { return false; }
      }
    }
    assert stages[..|stages|] == stages;
    ok := true;
  }

  // ----- whole documents -----

  /** `requirements` has no duplicates, does not contain `name`, and is within the keys of the table. */
  predicate RequiresWhatItNames(w: World, name: string, requirements: seq<string>) {
    && (forall i :: 0 <= i < |requirements| ==> requirements[i] in w.targets && requirements[i] != name)
    && forall i, j :: 0 <= i < j < |requirements| ==> requirements[i] != requirements[j]
  }

  method HoldRequirements(w: World, name: string, requirements: seq<string>) returns (ok: bool)
    ensures ok <==> RequiresWhatItNames(w, name, requirements)
  {
    var seen: set<string> := {};
    for i := 0 to |requirements|
      invariant RequiresWhatItNames(w, name, requirements[..i]) && seen == set r | r in requirements[..i]
    {
      var required := requirements[i];
      if required !in w.targets || required == name { return false; }
      if required in seen {
        var j :| 0 <= j < i && requirements[..i][j] == required;
        assert requirements[j] == requirements[i];
        return false;
      }
      seen := seen + {required};
      assert requirements[..i + 1] == requirements[..i] + [required];
    }
    assert requirements[..|requirements|] == requirements;
    ok := true;
  }

  lemma {:induction false} EnteringPositional(takes: seq<Ty>, n: nat)
    requires n <= |takes|
    ensures Entering(map[], Counting(n), takes[..n]) == Some(PositionalTypes(takes[..n]))
  {
    if n > 0 {
      EnteringPositional(takes, n - 1);
      assert Counting(n)[..n - 1] == Counting(n - 1) && takes[..n][..n - 1] == takes[..n - 1];
      assert PositionalTypes(takes[..n]) == PositionalTypes(takes[..n - 1])[n - 1 := takes[n - 1]];
    } else {
      assert Counting(0) == [] && takes[..0] == [];
    }
  }

  function Counting(n: nat): seq<nat> {
    seq(n, i => i)
  }

  /** A body with its parameters in force, numbered by where they stand. */
  method HoldBody(w: World, required: seq<string>, takes: seq<Ty>, body: Node, owed: Owed) returns (ok: bool)
    modifies owed
    ensures Comes(w.declared, old(owed.fits), owed.fits, ok, AcceptsBody(w, required, takes, body))
  {
    var walk := new BodyWalk(w, required, owed);
    EnteringPositional(takes, |takes|);
    assert takes[..|takes|] == takes;
    ok := walk.Under(Counting(|takes|), takes, body);
    if !ok { return; }
    var confining := new Confining();
    ok := confining.HoldOrdinary(body);
  }

  /** A local definition against its target, in what it requires and in what it is made of. */
  method HoldDefinition(w: World, name: string, owed: Owed) returns (ok: bool)
    requires name in w.definitions
    requires name in w.targets ==> w.definitions[name].requirements == w.targets[name].requirements
    modifies owed
    ensures Comes(w.declared, old(owed.fits), owed.fits, ok,
                  DefinitionStands(w, name) && RequiresWhatItNames(w, name, w.definitions[name].requirements))
  {
    if name !in w.targets { return false; }
    var target := w.targets[name];
    ok := HoldRequirements(w, name, w.definitions[name].requirements);
    if !ok { return; }
    match w.definitions[name]
    case BodyOf(requirements, body) =>
      if !target.kind.ByBody? || body.ty != target.answers { return false; }
      ok := HoldBody(w, requirements, target.takes, body, owed);
    case StagesOf(requirements, stages) =>
      if !target.kind.Composed? { return false; }
      ok := HoldComposition(w, target, stages, owed);
      if !ok { return; }
      ok := HoldHanded(w, requirements, stages);
  }

  ghost predicate NameStands(w: World, name: string) {
    && (DefinedHere(w, name) ==> DefinitionStands(w, name))
    && (name in w.definitions ==> RequiresWhatItNames(w, name, w.definitions[name].requirements))
    && (name in w.helpers ==> AcceptsBody(w, [], w.helpers[name].takes, w.helpers[name].body))
  }

  method HoldName(w: World, name: string, owed: Owed) returns (ok: bool)
    requires name in w.definitions && name in w.targets ==> w.definitions[name].requirements == w.targets[name].requirements
    modifies owed
    ensures Comes(w.declared, old(owed.fits), owed.fits, ok, NameStands(w, name))
  {
    if name in w.definitions {
      ok := HoldDefinition(w, name, owed);
      if !ok { return; }
    } else if DefinedHere(w, name) {
      return false;
    }
    if name in w.helpers {
      ok := HoldBody(w, [], w.helpers[name].takes, w.helpers[name].body, owed);
      return;
    }
    ok := true;
  }

  /** The whole document: what is accepted in two passes, the first owing and the second settling, is
      exactly what stands. */
  method HoldDocument(w: World) returns (ok: bool)
    requires forall name :: name in w.definitions && name in w.targets ==>
      w.definitions[name].requirements == w.targets[name].requirements
    ensures ok <==>
      && AcceptsDocument(w)
      && (forall name :: name in w.definitions ==> RequiresWhatItNames(w, name, w.definitions[name].requirements))
  {
    var owed := new Owed();
    var names := w.definitions.Keys + w.targets.Keys + w.helpers.Keys;
    var pending := names;
    while pending != {}
      invariant pending <= names
      invariant AllFit(w.declared, owed.fits) <==> forall name :: name in names - pending ==> NameStands(w, name)
      decreases pending
    {
      var name :| name in pending;
      ok := HoldName(w, name, owed);
      if !ok {
        assert !NameStands(w, name);
        return;
      }
      assert names - (pending - {name}) == names - pending + {name};
      pending := pending - {name};
    }
    assert names - pending == names;
    ok := owed.Settle(w.declared);
    assert forall name :: name !in names ==> NameStands(w, name);
  }
}
