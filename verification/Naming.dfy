/** When the names the pass keeps are the names in force. The pass over a body keeps a name of the list a
    step grows after its `let` has closed (native/crates/compiler/src/growing.rs), and a number may be
    bound again once it is out of force (`under` in coherent.rs), so a step may answer with a number that
    was a name of its list and is one no longer. It cannot exactly where it keeps its names. */
module Naming {
  import opened Options
  import opened Transport
  import opened Declarations
  import opened Growing
  import opened Machine
  import opened Coherence

  // ----- what a node leaves in the pass's set -----

  /** What is gained between two sets is not in force. */
  predicate NoneInForce(after: set<nat>, before: set<nat>, scope: Scope) {
    forall x :: x in after && x in scope ==> x in before
  }

  lemma {:induction false} EnteringMore(scope: Scope, numbers: seq<nat>, tys: seq<Ty>)
    requires |numbers| == |tys| && Entering(scope, numbers, tys).Some?
    ensures scope.Keys <= Entering(scope, numbers, tys).value.Keys
    decreases |numbers|
  {
    if numbers != [] {
      var last := |numbers| - 1;
      EnteringMore(scope, numbers[..last], tys[..last]);
    }
  }

  /** Every child of an accepted node is accepted where at least as much is in force. */
  lemma ChildIsAccepted(w: World, required: seq<string>, scope: Scope, node: Node, i: nat) returns (inner: Scope)
    requires Accepts(w, required, scope, node) && !node.Walk? && i < |Children(node)|
    ensures scope.Keys <= inner.Keys && Accepts(w, required, inner, Children(node)[i])
  {
    inner := scope;
    match node
    case Attempt(_, values, binding, binds, _, _, _) => if i == |values| { inner := scope[binding := binds]; }
    case Let(binding, binds, _, _, _) => if i == 1 { inner := scope[binding := binds]; }
    case Match(subject, arms, ty) =>
      if i > 0 {
        assert AcceptsArm(w, required, scope, subject.ty, arms[i - 1], ty);
        inner := ArmScope(scope, arms[i - 1].binding).value;
      }
    case Block(_, parameters, _, ty) =>
      EnteringMore(scope, parameters, ty.takes);
      inner := Entering(scope, parameters, ty.takes).value;
    case _ =>
  }

  /** Whatever a node leaves in the pass's set besides what was there is out of force again after it. */
  lemma {:induction false} OrdinaryStays(w: World, required: seq<string>, scope: Scope, node: Node,
                                         steps: Steps, growing: set<nat>, outside: set<nat>)
    requires Accepts(w, required, scope, node) && Ordinary(steps, node, growing, outside).Some?
    ensures NoneInForce(Ordinary(steps, node, growing, outside).value, growing, scope)
    decreases node, 2
  {
    if node.Walk? {
      WalkedStays(w, required, scope, node, steps, growing, outside);
      var after := OrdinaryWalked(steps, node, growing, outside).value;
      OrdinaryStays(w, required, scope, node.walked, steps, after, outside);
      OrdinaryStays(w, required, scope, node.from, steps, Ordinary(steps, node.walked, after, outside).value, outside);
    } else if node.Let? && NamesTheGrown(node.value, growing) {
      OrdinaryStays(w, required, scope[node.binding := node.binds], node.body, steps, growing + {node.binding}, outside);
    } else if !node.Read? {
      ChildrenStay(w, required, scope, node, 0, steps, growing, outside);
    }
  }

  lemma {:induction false} ChildrenStay(w: World, required: seq<string>, scope: Scope, node: Node, at: nat,
                                        steps: Steps, growing: set<nat>, outside: set<nat>)
    requires Accepts(w, required, scope, node) && !node.Walk? && at <= |Children(node)|
    requires OrdinaryFrom(steps, node, at, growing, outside).Some?
    ensures NoneInForce(OrdinaryFrom(steps, node, at, growing, outside).value, growing, scope)
    decreases node, 1, |Children(node)| - at
  {
    if at < |Children(node)| {
      var inner := ChildIsAccepted(w, required, scope, node, at);
      OrdinaryStays(w, required, inner, Children(node)[at], steps, growing, outside);
      ChildrenStay(w, required, scope, node, at + 1, steps, Ordinary(steps, Children(node)[at], growing, outside).value, outside);
    }
  }

  lemma {:induction false} WalkedStays(w: World, required: seq<string>, scope: Scope, node: Node,
                                       steps: Steps, growing: set<nat>, outside: set<nat>)
    requires Accepts(w, required, scope, node) && node.Walk? && OrdinaryWalked(steps, node, growing, outside).Some?
    ensures NoneInForce(OrdinaryWalked(steps, node, growing, outside).value, growing, scope)
    decreases node, 1
  {
    assert node.around[0..] == node.around;
    match node.builds
    case BuildsList => AroundStays(w, required, scope, node, 0, steps, growing, outside);
    case BuildsMap => StepStays(w, required, scope, node, 0, steps, growing, outside);
  }

  lemma {:induction false} AroundStays(w: World, required: seq<string>, scope: Scope, node: Node, at: nat,
                                       steps: Steps, growing: set<nat>, outside: set<nat>)
    requires node.Walk? && at <= |node.around| && AroundScope(w, required, scope, node.around[at..]).Some?
    requires OrdinaryAround(steps, node, at, growing, outside).Some?
    ensures NoneInForce(OrdinaryAround(steps, node, at, growing, outside).value, growing, scope)
    decreases node, 0, |node.around| - at
  {
    if at < |node.around| {
      var first, rest := node.around[at], node.around[at..];
      assert rest[0] == first && rest[1..] == node.around[at + 1..] && first.value < first;
      OrdinaryStays(w, required, scope, first.value, steps, growing, outside);
      AroundStays(w, required, scope[first.binding := first.binds], node, at + 1, steps,
                  Ordinary(steps, first.value, growing, outside).value, outside);
    }
  }

  /** A walk's step, its lets from `at` on bound. */
  predicate StepAccepted(w: World, required: seq<string>, scope: Scope, node: Node, at: nat)
    requires node.Walk? && at <= |node.around|
  {
    && |node.takes| == 2
    && match AroundScope(w, required, scope, node.around[at..])
       case None => false
       case Some(inner) =>
         var stepping := Entering(inner, [node.grown, node.each], node.takes);
         stepping.Some? && Accepts(w, required, stepping.value, node.body)
  }

  /** The next value bound around a step, and the step under it. */
  lemma StepOn(w: World, required: seq<string>, scope: Scope, node: Node, at: nat)
    requires node.Walk? && at < |node.around| && StepAccepted(w, required, scope, node, at)
    ensures var first := node.around[at];
      && Accepts(w, required, scope, first.value) && first.binding !in scope
      && StepAccepted(w, required, scope[first.binding := first.binds], node, at + 1)
  {
    var rest := node.around[at..];
    assert rest[0] == node.around[at] && rest[1..] == node.around[at + 1..];
  }

  /** The step itself, where all around it is in force. */
  lemma StepIn(w: World, required: seq<string>, scope: Scope, node: Node) returns (stepping: Scope)
    requires node.Walk? && StepAccepted(w, required, scope, node, |node.around|)
    ensures scope.Keys <= stepping.Keys && node.grown !in scope && node.each !in scope && node.grown != node.each
    ensures stepping.Keys == scope.Keys + {node.grown, node.each} && Accepts(w, required, stepping, node.body)
  {
    assert node.around[|node.around|..] == [];
    EnteringTwo(scope, node.grown, node.each, node.takes);
    stepping := scope[node.grown := node.takes[0]][node.each := node.takes[1]];
  }

  lemma {:induction false} StepStays(w: World, required: seq<string>, scope: Scope, node: Node, at: nat,
                                     steps: Steps, growing: set<nat>, outside: set<nat>)
    requires node.Walk? && at <= |node.around| && StepAccepted(w, required, scope, node, at)
    requires OrdinaryStep(steps, node, at, growing, outside).Some?
    ensures NoneInForce(OrdinaryStep(steps, node, at, growing, outside).value, growing, scope)
    decreases node, 0, |node.around| - at
  {
    if at == |node.around| {
      var stepping := StepIn(w, required, scope, node);
      OrdinaryStays(w, required, stepping, node.body, steps, growing, outside);
    } else {
      var first := node.around[at];
      assert first.value < first;
      StepOn(w, required, scope, node, at);
      var inner := scope[first.binding := first.binds];
      if NamesTheGrown(first.value, growing) {
        StepStays(w, required, inner, node, at + 1, steps, growing + {first.binding}, outside);
      } else {
        OrdinaryStays(w, required, scope, first.value, steps, growing, outside);
        StepStays(w, required, inner, node, at + 1, steps, Ordinary(steps, first.value, growing, outside).value, outside);
      }
    }
  }

  lemma {:induction false} AnsweringStays(w: World, required: seq<string>, scope: Scope, node: Node,
                                          steps: Steps, growing: set<nat>, outside: set<nat>)
    requires Accepts(w, required, scope, node) && Answering(steps, node, growing, outside).Some?
    ensures NoneInForce(Answering(steps, node, growing, outside).value, growing, scope)
    decreases node, 2
  {
    match node
    case Read(_, _) =>
    case Unreachable(_) =>
    case Widen(value, _) => AnsweringStays(w, required, scope, value, steps, growing, outside);
    case Let(binding, binds, value, body, _) =>
      if NamesTheGrown(value, growing) {
        AnsweringStays(w, required, scope[binding := binds], body, steps, growing + {binding}, outside);
      } else {
        OrdinaryStays(w, required, scope, value, steps, growing, outside);
        AnsweringStays(w, required, scope[binding := binds], body, steps, Ordinary(steps, value, growing, outside).value, outside);
      }
    case If(cond, yes, no, _) =>
      OrdinaryStays(w, required, scope, cond, steps, growing, outside);
      var g := Ordinary(steps, cond, growing, outside).value;
      AnsweringStays(w, required, scope, yes, steps, g, outside);
      AnsweringStays(w, required, scope, no, steps, Answering(steps, yes, g, outside).value, outside);
    case Match(subject, _, _) =>
      OrdinaryStays(w, required, scope, subject, steps, growing, outside);
      ArmsStay(w, required, scope, node, 0, steps, Ordinary(steps, subject, growing, outside).value, outside);
    case Call(_, arguments, _) => OrdinaryStays(w, required, scope, arguments[1], steps, growing, outside);
  }

  lemma {:induction false} ArmsStay(w: World, required: seq<string>, scope: Scope, node: Node, at: nat,
                                    steps: Steps, growing: set<nat>, outside: set<nat>)
    requires Accepts(w, required, scope, node) && node.Match? && at <= |node.arms|
    requires AnsweringArms(steps, node, at, growing, outside).Some?
    ensures NoneInForce(AnsweringArms(steps, node, at, growing, outside).value, growing, scope)
    decreases node, 1, |node.arms| - at
  {
    if at < |node.arms| {
      var arm := node.arms[at];
      assert arm.body < arm && AcceptsArm(w, required, scope, node.subject.ty, arm, node.ty);
      AnsweringStays(w, required, ArmScope(scope, arm.binding).value, arm.body, steps, growing, outside);
      ArmsStay(w, required, scope, node, at + 1, steps, Answering(steps, arm.body, growing, outside).value, outside);
    }
  }

  // ----- where names are kept, they are the ones in force -----

  /** The pass has at least the names in force, of this step and of those around it, and has taken none of
      theirs for its own. */
  predicate Held(scope: Scope, growing: set<nat>, outside: set<nat>, named: set<nat>, around: set<nat>) {
    && named <= growing && named <= scope.Keys
    && around <= outside && around <= scope.Keys && growing !! around
  }

  lemma {:induction false} OrdinaryIsScoped(w: World, required: seq<string>, scope: Scope, node: Node, maps: Option<Declared>,
                                            growing: set<nat>, outside: set<nat>, named: set<nat>, around: set<nat>)
    requires Accepts(w, required, scope, node) && Ordinary(Steps(maps, true), node, growing, outside).Some?
    requires Held(scope, growing, outside, named, around)
    ensures Scoped(maps, node, named, around)
    decreases node, 3
  {
    var steps := Steps(maps, true);
    if node.Walk? {
      WalkIsScoped(w, required, scope, node, maps, growing, outside, named, around);
    } else if node.Let? && NamesTheGrown(node.value, growing) {
      var more := if NamesTheGrown(node.value, named) then named + {node.binding} else named;
      OrdinaryIsScoped(w, required, scope[node.binding := node.binds], node.body, maps, growing + {node.binding}, outside, more, around);
    } else if !node.Read? {
      ChildrenAreScoped(w, required, scope, node, 0, maps, growing, outside, named, around);
      ScopedByChildren(maps, node, named, around);
    }
  }

  lemma {:induction false} ChildrenAreScoped(w: World, required: seq<string>, scope: Scope, node: Node, at: nat, maps: Option<Declared>,
                                             growing: set<nat>, outside: set<nat>, named: set<nat>, around: set<nat>)
    requires Accepts(w, required, scope, node) && !node.Walk? && at <= |Children(node)|
    requires OrdinaryFrom(Steps(maps, true), node, at, growing, outside).Some?
    requires Held(scope, growing, outside, named, around)
    ensures forall i :: at <= i < |Children(node)| ==> Scoped(maps, Children(node)[i], named, around)
    decreases node, 2, |Children(node)| - at
  {
    if at < |Children(node)| {
      var steps, child := Steps(maps, true), Children(node)[at];
      var inner := ChildIsAccepted(w, required, scope, node, at);
      OrdinaryIsScoped(w, required, inner, child, maps, growing, outside, named, around);
      OrdinaryStays(w, required, inner, child, steps, growing, outside);
      ChildrenAreScoped(w, required, scope, node, at + 1, maps, Ordinary(steps, child, growing, outside).value, outside, named, around);
    }
  }

  lemma ScopedByChildren(maps: Option<Declared>, node: Node, named: set<nat>, around: set<nat>)
    requires !node.Walk? && !node.Read? && !(node.Call? && node.reaches.GrowList?)
    requires !(node.Let? && NamesTheGrown(node.value, named))
    requires forall i :: 0 <= i < |Children(node)| ==> Scoped(maps, Children(node)[i], named, around)
    ensures Scoped(maps, node, named, around)
  {
    var c := Children(node);
    match node
    case Attempt(_, values, _, _, built, departures, _) =>
      forall i | 0 <= i < |values| ensures Scoped(maps, values[i], named, around) { assert c[i] == values[i]; }
      assert c[|values|] == built;
      forall i | 0 <= i < |departures| ensures Scoped(maps, departures[i].body, named, around) {
        assert c[|values| + 1 + i] == departures[i].body;
      }
    case Match(subject, arms, _) =>
      assert c[0] == subject;
      forall i | 0 <= i < |arms| ensures Scoped(maps, arms[i].body, named, around) { assert c[i + 1] == arms[i].body; }
    case Apply(applied, arguments, _) =>
      assert c[0] == applied;
      forall i | 0 <= i < |arguments| ensures Scoped(maps, arguments[i], named, around) { assert c[i + 1] == arguments[i]; }
    case Let(_, _, value, body, _) => assert c[0] == value && c[1] == body;
    case If(cond, yes, no, _) => assert c[0] == cond && c[1] == yes && c[2] == no;
    case FieldOf(target, _, _) => assert c[0] == target;
    case PresentNode(value, _) => assert c[0] == value;
    case Member(tuple, _, _) => assert c[0] == tuple;
    case Block(_, _, body, _) => assert c[0] == body;
    case Widen(value, _) => assert c[0] == value;
    case _ =>
  }

  lemma {:induction false} WalkIsScoped(w: World, required: seq<string>, scope: Scope, node: Node, maps: Option<Declared>,
                                        growing: set<nat>, outside: set<nat>, named: set<nat>, around: set<nat>)
    requires Accepts(w, required, scope, node) && node.Walk? && Ordinary(Steps(maps, true), node, growing, outside).Some?
    requires Held(scope, growing, outside, named, around)
    ensures Scoped(maps, node, named, around)
    decreases node, 2
  {
    var steps := Steps(maps, true);
    var after := OrdinaryWalked(steps, node, growing, outside).value;
    WalkedStays(w, required, scope, node, steps, growing, outside);
    OrdinaryStays(w, required, scope, node.walked, steps, after, outside);
    OrdinaryIsScoped(w, required, scope, node.walked, maps, after, outside, named, around);
    OrdinaryIsScoped(w, required, scope, node.from, maps, Ordinary(steps, node.walked, after, outside).value, outside, named, around);
    assert node.around[0..] == node.around;
    if !NeverRuns(node.takes) {
      match node.builds
      case BuildsList =>
        ListStepIsScoped(w, required, scope, node, 0, maps, growing, outside, named, around);
        forall i | 0 <= i < |node.around| ensures Scoped(maps, node.around[i].value, named, around) { }
      case BuildsMap => MapStepIsScoped(w, required, scope, node, 0, maps, growing, outside, named, around);
    }
  }

  lemma {:induction false} ListStepIsScoped(w: World, required: seq<string>, scope: Scope, node: Node, at: nat, maps: Option<Declared>,
                                            growing: set<nat>, outside: set<nat>, named: set<nat>, around: set<nat>)
    requires node.Walk? && at <= |node.around| && StepAccepted(w, required, scope, node, at)
    requires OrdinaryAround(Steps(maps, true), node, at, growing, outside).Some?
    requires var g := OrdinaryAround(Steps(maps, true), node, at, growing, outside).value + outside;
      && Answering(Steps(maps, true), node.body, {node.grown}, g).Some?
      && KeepsNames(Steps(maps, true), node.body, {node.grown}, g)
    requires Held(scope, growing, outside, named, around)
    ensures forall i :: at <= i < |node.around| ==> Scoped(maps, node.around[i].value, named, around)
    ensures ScopedAnswer(maps, node.body, {node.grown}, named + around)
    decreases node, 1, |node.around| - at
  {
    var steps := Steps(maps, true);
    if at == |node.around| {
      var stepping := StepIn(w, required, scope, node);
      AnsweringIsScoped(w, required, stepping, node.body, maps, {node.grown}, growing + outside, {node.grown}, named + around);
    } else {
      var first := node.around[at];
      assert first.value < first;
      StepOn(w, required, scope, node, at);
      OrdinaryStays(w, required, scope, first.value, steps, growing, outside);
      OrdinaryIsScoped(w, required, scope, first.value, maps, growing, outside, named, around);
      ListStepIsScoped(w, required, scope[first.binding := first.binds], node, at + 1, maps,
                       Ordinary(steps, first.value, growing, outside).value, outside, named, around);
    }
  }

  lemma {:induction false} MapStepIsScoped(w: World, required: seq<string>, scope: Scope, node: Node, at: nat, maps: Option<Declared>,
                                           growing: set<nat>, outside: set<nat>, named: set<nat>, around: set<nat>)
    requires node.Walk? && at <= |node.around| && StepAccepted(w, required, scope, node, at)
    requires OrdinaryStep(Steps(maps, true), node, at, growing, outside).Some?
    requires Held(scope, growing, outside, named, around)
    ensures ScopedStep(maps, node, at, named, around)
    decreases node, 1, |node.around| - at
  {
    var steps := Steps(maps, true);
    if at == |node.around| {
      var stepping := StepIn(w, required, scope, node);
      OrdinaryIsScoped(w, required, stepping, node.body, maps, growing, outside, named, around);
    } else {
      var first := node.around[at];
      assert first.value < first;
      StepOn(w, required, scope, node, at);
      var inner := scope[first.binding := first.binds];
      if NamesTheGrown(first.value, growing) {
        var more := if NamesTheGrown(first.value, named) then named + {first.binding} else named;
        MapStepIsScoped(w, required, inner, node, at + 1, maps, growing + {first.binding}, outside, more, around);
      } else {
        OrdinaryStays(w, required, scope, first.value, steps, growing, outside);
        OrdinaryIsScoped(w, required, scope, first.value, maps, growing, outside, named, around);
        MapStepIsScoped(w, required, inner, node, at + 1, maps, Ordinary(steps, first.value, growing, outside).value, outside, named, around);
      }
    }
  }

  /** Where a step answers, keeping its names: whatever the pass has for a name and is in force is one,
      until no answer is come to any more. */
  predicate Current(scope: Scope, node: Node, growing: set<nat>, named: set<nat>) {
    Ends(node) || forall x :: x in growing && x in scope ==> x in named
  }

  /** What is read is in force. */
  lemma NamedIsInForce(w: World, required: seq<string>, scope: Scope, node: Node, growing: set<nat>, named: set<nat>)
    requires Accepts(w, required, scope, node) && NamesTheGrown(node, growing)
    requires forall x :: x in growing && x in scope ==> x in named
    ensures NamesTheGrown(node, named)
  {
    if node.Widen? { assert Accepts(w, required, scope, node.value); }
  }

  lemma {:induction false} AnsweringIsScoped(w: World, required: seq<string>, scope: Scope, node: Node, maps: Option<Declared>,
                                             growing: set<nat>, outside: set<nat>, named: set<nat>, around: set<nat>)
    requires Accepts(w, required, scope, node) && Answering(Steps(maps, true), node, growing, outside).Some?
    requires KeepsNames(Steps(maps, true), node, growing, outside)
    requires Held(scope, growing, outside, named, around) && Current(scope, node, growing, named)
    ensures ScopedAnswer(maps, node, named, around)
    decreases node, 3
  {
    match node
    case Read(_, _) =>
    case Unreachable(_) =>
    case Widen(value, _) => AnsweringIsScoped(w, required, scope, value, maps, growing, outside, named, around);
    case Let(_, _, _, _, _) => LetIsScoped(w, required, scope, node, maps, growing, outside, named, around);
    case If(_, _, _, _) => ForkIsScoped(w, required, scope, node, maps, growing, outside, named, around);
    case Match(subject, _, _) =>
      OrdinaryStays(w, required, scope, subject, Steps(maps, true), growing, outside);
      OrdinaryIsScoped(w, required, scope, subject, maps, growing, outside, named, around);
      ArmsAreScoped(w, required, scope, node, 0, maps, Ordinary(Steps(maps, true), subject, growing, outside).value, outside, named, around);
    case Call(_, arguments, _) =>
      NamedIsInForce(w, required, scope, arguments[0], growing, named);
      OrdinaryIsScoped(w, required, scope, arguments[1], maps, growing, outside, named, around);
  }

  lemma {:induction false} LetIsScoped(w: World, required: seq<string>, scope: Scope, node: Node, maps: Option<Declared>,
                                        growing: set<nat>, outside: set<nat>, named: set<nat>, around: set<nat>)
    requires node.Let? && Accepts(w, required, scope, node) && Answering(Steps(maps, true), node, growing, outside).Some?
    requires KeepsNames(Steps(maps, true), node, growing, outside)
    requires Held(scope, growing, outside, named, around) && Current(scope, node, growing, named)
    ensures ScopedAnswer(maps, node, named, around)
    decreases node, 2
  {
    var steps, inner := Steps(maps, true), scope[node.binding := node.binds];
    if NamesTheGrown(node.value, growing) {
      if !Ends(node.body) { NamedIsInForce(w, required, scope, node.value, growing, named); }
      var more := if NamesTheGrown(node.value, named) then named + {node.binding} else named;
      AnsweringIsScoped(w, required, inner, node.body, maps, growing + {node.binding}, outside, more, around);
    } else {
      OrdinaryStays(w, required, scope, node.value, steps, growing, outside);
      OrdinaryIsScoped(w, required, scope, node.value, maps, growing, outside, named, around);
      var g := Ordinary(steps, node.value, growing, outside).value;
      AnsweringIsScoped(w, required, inner, node.body, maps, g, outside, named, around);
    }
  }

  lemma {:induction false} ForkIsScoped(w: World, required: seq<string>, scope: Scope, node: Node, maps: Option<Declared>,
                                        growing: set<nat>, outside: set<nat>, named: set<nat>, around: set<nat>)
    requires node.If? && Accepts(w, required, scope, node) && Answering(Steps(maps, true), node, growing, outside).Some?
    requires KeepsNames(Steps(maps, true), node, growing, outside)
    requires Held(scope, growing, outside, named, around) && Current(scope, node, growing, named)
    ensures ScopedAnswer(maps, node, named, around)
    decreases node, 2
  {
    var steps := Steps(maps, true);
    OrdinaryStays(w, required, scope, node.cond, steps, growing, outside);
    OrdinaryIsScoped(w, required, scope, node.cond, maps, growing, outside, named, around);
    var g := Ordinary(steps, node.cond, growing, outside).value;
    AnsweringStays(w, required, scope, node.yes, steps, g, outside);
    AnsweringIsScoped(w, required, scope, node.yes, maps, g, outside, named, around);
    AnsweringIsScoped(w, required, scope, node.no, maps, Answering(steps, node.yes, g, outside).value, outside, named, around);
  }

  lemma {:induction false} ArmIsScoped(w: World, required: seq<string>, scope: Scope, node: Node, at: nat, maps: Option<Declared>,
                                       growing: set<nat>, outside: set<nat>, named: set<nat>, around: set<nat>)
    requires Accepts(w, required, scope, node) && node.Match? && at < |node.arms|
    requires Answering(Steps(maps, true), node.arms[at].body, growing, outside).Some?
    requires NumbersOf(node.arms[at].binding) !! growing || Ends(node.arms[at].body)
    requires KeepsNames(Steps(maps, true), node.arms[at].body, growing, outside)
    requires Held(scope, growing, outside, named, around) && Current(scope, node, growing, named)
    ensures ScopedAnswer(maps, node.arms[at].body, named, around)
    ensures var after := Answering(Steps(maps, true), node.arms[at].body, growing, outside).value;
            Held(scope, after, outside, named, around) && Current(scope, node, after, named)
    decreases node, 1
  {
    var arm := node.arms[at];
    assert arm.body < arm && AcceptsArm(w, required, scope, node.subject.ty, arm, node.ty);
    var inner := ArmScope(scope, arm.binding).value;
    AnsweringStays(w, required, inner, arm.body, Steps(maps, true), growing, outside);
    AnsweringIsScoped(w, required, inner, arm.body, maps, growing, outside, named, around);
  }

  lemma {:induction false} ArmsAreScoped(w: World, required: seq<string>, scope: Scope, node: Node, at: nat, maps: Option<Declared>,
                                         growing: set<nat>, outside: set<nat>, named: set<nat>, around: set<nat>)
    requires Accepts(w, required, scope, node) && node.Match? && at <= |node.arms|
    requires AnsweringArms(Steps(maps, true), node, at, growing, outside).Some?
    requires ArmsKeepNames(Steps(maps, true), node, at, growing, outside)
    requires Held(scope, growing, outside, named, around) && Current(scope, node, growing, named)
    ensures forall i :: at <= i < |node.arms| ==> ScopedAnswer(maps, node.arms[i].body, named, around)
    decreases node, 2, |node.arms| - at
  {
    if at < |node.arms| {
      ArmIsScoped(w, required, scope, node, at, maps, growing, outside, named, around);
      var after := Answering(Steps(maps, true), node.arms[at].body, growing, outside).value;
      ArmsAreScoped(w, required, scope, node, at + 1, maps, after, outside, named, around);
    }
  }

  /** A document accepted, the pass with it, whose steps keep their names is one whose steps hold. */
  lemma KeepingHolds(w: World)
    requires AcceptsDocument(w) && StepsKeep(w)
    ensures StepsHold(w)
  {
    var none: set<nat> := {};
    forall name | name in w.definitions && w.definitions[name].BodyOf?
      ensures Scoped(Some(w.declared), w.definitions[name].body, {}, {})
    {
      assert DefinedHere(w, name) && DefinitionStands(w, name);
      var definition, takes := w.definitions[name], w.targets[name].takes;
      assert AcceptsBody(w, definition.requirements, takes, definition.body);
      OrdinaryIsScoped(w, definition.requirements, PositionalTypes(takes), definition.body, Some(w.declared), none, none, none, none);
    }
    forall name | name in w.helpers ensures Scoped(Some(w.declared), w.helpers[name].body, {}, {}) {
      var helper := w.helpers[name];
      assert AcceptsBody(w, [], helper.takes, helper.body);
      OrdinaryIsScoped(w, [], PositionalTypes(helper.takes), helper.body, Some(w.declared), none, none, none, none);
    }
  }

  // ----- and exactly where they are kept -----

  predicate SameName(a: Node, b: Node) {
    || (a.Read? && b.Read? && a.ty == b.ty)
    || (a.Widen? && b.Widen? && a.ty == b.ty && a.value.Read? && b.value.Read? && a.value.ty == b.value.ty)
  }

  /** `m` is `n` but for which number each of its answers is of. */
  predicate OtherNumbers(n: Node, m: Node)
    decreases n
  {
    match n
    case Read(_, ty) => m.Read? && m.ty == ty
    case Widen(value, ty) => m.Widen? && m.ty == ty && OtherNumbers(value, m.value)
    case Let(binding, binds, value, body, ty) => m.Let? && m == Let(binding, binds, value, m.body, ty) && OtherNumbers(body, m.body)
    case If(cond, yes, no, ty) => m.If? && m == If(cond, m.yes, m.no, ty) && OtherNumbers(yes, m.yes) && OtherNumbers(no, m.no)
    case Match(subject, arms, ty) =>
      && m.Match? && |m.arms| == |arms| && m == Match(subject, m.arms, ty)
      && forall i :: 0 <= i < |arms| ==> m.arms[i] == arms[i].(body := m.arms[i].body) && OtherNumbers(arms[i].body, m.arms[i].body)
    case Call(reaches, arguments, ty) =>
      if reaches.GrowList? && |arguments| == 2 then
        && m.Call? && |m.arguments| == 2 && m == Call(reaches, m.arguments, ty)
        && m.arguments[1] == arguments[1] && SameName(arguments[0], m.arguments[0])
      else m == n
    case _ => m == n
  }

  /** Every number it answers by is in force there. */
  predicate AnswersInForce(m: Node, force: set<nat>)
    decreases m
  {
    match m
    case Read(binding, _) => binding in force
    case Widen(value, _) => AnswersInForce(value, force)
    case Let(binding, _, _, body, _) => AnswersInForce(body, force + {binding})
    case If(_, yes, no, _) => AnswersInForce(yes, force) && AnswersInForce(no, force)
    case Match(_, arms, _) => forall i :: 0 <= i < |arms| ==> AnswersInForce(arms[i].body, force + NumbersOf(arms[i].binding))
    case Call(reaches, arguments, _) => reaches.GrowList? && |arguments| == 2 ==> NamesTheGrown(arguments[0], force)
    case _ => true
  }

  /** Every number it answers by names the list the step grows, as the lowering has it: a name is one for
      the body of the `let` that bound it. */
  predicate AnswersNamed(m: Node, named: set<nat>)
    decreases m
  {
    match m
    case Read(binding, _) => binding in named
    case Widen(value, _) => AnswersNamed(value, named)
    case Let(binding, _, value, body, _) => AnswersNamed(body, if NamesTheGrown(value, named) then named + {binding} else named)
    case If(_, yes, no, _) => AnswersNamed(yes, named) && AnswersNamed(no, named)
    case Match(_, arms, _) => forall i :: 0 <= i < |arms| ==> AnswersNamed(arms[i].body, named)
    case Call(reaches, arguments, _) => reaches.GrowList? && |arguments| == 2 ==> NamesTheGrown(arguments[0], named)
    case _ => true
  }

  /** The pass is left with one set by both. */
  lemma {:induction false} SamePass(n: Node, m: Node, growing: set<nat>, outside: set<nat>)
    requires OtherNumbers(n, m) && Answering(PASS, n, growing, outside).Some? && Answering(PASS, m, growing, outside).Some?
    ensures Answering(PASS, n, growing, outside) == Answering(PASS, m, growing, outside)
    decreases n, 1
  {
    match n
    case Widen(value, _) => SamePass(value, m.value, growing, outside);
    case Let(binding, _, value, body, _) =>
      SamePass(body, m.body, if NamesTheGrown(value, growing) then growing + {binding} else Ordinary(PASS, value, growing, outside).value, outside);
    case If(cond, yes, no, _) =>
      var g := Ordinary(PASS, cond, growing, outside).value;
      SamePass(yes, m.yes, g, outside);
      SamePass(no, m.no, Answering(PASS, yes, g, outside).value, outside);
    case Match(subject, _, _) => SameArms(n, m, 0, Ordinary(PASS, subject, growing, outside).value, outside);
    case _ =>
  }

  lemma {:induction false} SameArms(n: Node, m: Node, at: nat, growing: set<nat>, outside: set<nat>)
    requires n.Match? && OtherNumbers(n, m) && at <= |n.arms|
    requires AnsweringArms(PASS, n, at, growing, outside).Some? && AnsweringArms(PASS, m, at, growing, outside).Some?
    ensures AnsweringArms(PASS, n, at, growing, outside) == AnsweringArms(PASS, m, at, growing, outside)
    decreases n, 0, |n.arms| - at
  {
    if at < |n.arms| {
      assert n.arms[at].body < n.arms[at];
      SamePass(n.arms[at].body, m.arms[at].body, growing, outside);
      SameArms(n, m, at + 1, Answering(PASS, n.arms[at].body, growing, outside).value, outside);
    }
  }

  /** Where the names are kept, every answer the pass lets by, whatever number in force it is of, is of the
      list. */
  lemma {:induction false} KeptAreNamed(w: World, required: seq<string>, scope: Scope, n: Node, m: Node,
                                        growing: set<nat>, outside: set<nat>, named: set<nat>)
    requires Accepts(w, required, scope, n) && OtherNumbers(n, m) && AnswersInForce(m, scope.Keys)
    requires Answering(PASS, n, growing, outside).Some? && Answering(PASS, m, growing, outside).Some?
    requires KeepsNames(PASS, n, growing, outside) && named <= growing && Current(scope, n, growing, named)
    ensures AnswersNamed(m, named)
    decreases n, 1
  {
    match n
    case Read(_, _) =>
    case Widen(value, _) => KeptAreNamed(w, required, scope, value, m.value, growing, outside, named);
    case Let(_, _, _, _, _) => KeptLetIsNamed(w, required, scope, n, m, growing, outside, named);
    case If(_, _, _, _) => KeptForkIsNamed(w, required, scope, n, m, growing, outside, named);
    case Match(subject, _, _) =>
      OrdinaryStays(w, required, scope, subject, PASS, growing, outside);
      KeptArmsAreNamed(w, required, scope, n, m, 0, Ordinary(PASS, subject, growing, outside).value, outside, named);
    case _ =>
  }

  lemma {:induction false} KeptLetIsNamed(w: World, required: seq<string>, scope: Scope, n: Node, m: Node,
                                          growing: set<nat>, outside: set<nat>, named: set<nat>)
    requires n.Let? && Accepts(w, required, scope, n) && OtherNumbers(n, m) && AnswersInForce(m, scope.Keys)
    requires Answering(PASS, n, growing, outside).Some? && Answering(PASS, m, growing, outside).Some?
    requires KeepsNames(PASS, n, growing, outside) && named <= growing && Current(scope, n, growing, named)
    ensures AnswersNamed(m, named)
    decreases n, 0
  {
    var inner := scope[n.binding := n.binds];
    assert inner.Keys == scope.Keys + {n.binding};
    if NamesTheGrown(n.value, growing) {
      if !Ends(n.body) { NamedIsInForce(w, required, scope, n.value, growing, named); }
      var more := if NamesTheGrown(n.value, named) then named + {n.binding} else named;
      KeptAreNamed(w, required, inner, n.body, m.body, growing + {n.binding}, outside, more);
    } else {
      OrdinaryStays(w, required, scope, n.value, PASS, growing, outside);
      KeptAreNamed(w, required, inner, n.body, m.body, Ordinary(PASS, n.value, growing, outside).value, outside, named);
    }
  }

  lemma {:induction false} KeptForkIsNamed(w: World, required: seq<string>, scope: Scope, n: Node, m: Node,
                                          growing: set<nat>, outside: set<nat>, named: set<nat>)
    requires n.If? && Accepts(w, required, scope, n) && OtherNumbers(n, m) && AnswersInForce(m, scope.Keys)
    requires Answering(PASS, n, growing, outside).Some? && Answering(PASS, m, growing, outside).Some?
    requires KeepsNames(PASS, n, growing, outside) && named <= growing && Current(scope, n, growing, named)
    ensures AnswersNamed(m, named)
    decreases n, 0
  {
    OrdinaryStays(w, required, scope, n.cond, PASS, growing, outside);
    var g := Ordinary(PASS, n.cond, growing, outside).value;
    AnsweringStays(w, required, scope, n.yes, PASS, g, outside);
    SamePass(n.yes, m.yes, g, outside);
    KeptAreNamed(w, required, scope, n.yes, m.yes, g, outside, named);
    KeptAreNamed(w, required, scope, n.no, m.no, Answering(PASS, n.yes, g, outside).value, outside, named);
  }

  lemma {:induction false} KeptArmIsNamed(w: World, required: seq<string>, scope: Scope, n: Node, m: Node, at: nat,
                                          growing: set<nat>, outside: set<nat>, named: set<nat>)
    requires n.Match? && Accepts(w, required, scope, n) && OtherNumbers(n, m) && AnswersInForce(m, scope.Keys) && at < |n.arms|
    requires Answering(PASS, n.arms[at].body, growing, outside).Some? && Answering(PASS, m.arms[at].body, growing, outside).Some?
    requires NumbersOf(n.arms[at].binding) !! growing || Ends(n.arms[at].body)
    requires KeepsNames(PASS, n.arms[at].body, growing, outside) && named <= growing && Current(scope, n, growing, named)
    ensures AnswersNamed(m.arms[at].body, named)
    ensures var after := Answering(PASS, n.arms[at].body, growing, outside);
            after == Answering(PASS, m.arms[at].body, growing, outside) && Current(scope, n, after.value, named)
    decreases n, 0, 0
  {
    var arm := n.arms[at];
    assert arm.body < arm && AcceptsArm(w, required, scope, n.subject.ty, arm, n.ty);
    var inner := ArmScope(scope, arm.binding).value;
    assert inner.Keys == scope.Keys + NumbersOf(arm.binding);
    AnsweringStays(w, required, inner, arm.body, PASS, growing, outside);
    SamePass(arm.body, m.arms[at].body, growing, outside);
    KeptAreNamed(w, required, inner, arm.body, m.arms[at].body, growing, outside, named);
  }

  lemma {:induction false} KeptArmsAreNamed(w: World, required: seq<string>, scope: Scope, n: Node, m: Node, at: nat,
                                            growing: set<nat>, outside: set<nat>, named: set<nat>)
    requires n.Match? && Accepts(w, required, scope, n) && OtherNumbers(n, m) && AnswersInForce(m, scope.Keys) && at <= |n.arms|
    requires AnsweringArms(PASS, n, at, growing, outside).Some? && AnsweringArms(PASS, m, at, growing, outside).Some?
    requires ArmsKeepNames(PASS, n, at, growing, outside) && named <= growing && Current(scope, n, growing, named)
    ensures forall i :: at <= i < |n.arms| ==> AnswersNamed(m.arms[i].body, named)
    decreases n, 0, 1 + |n.arms| - at
  {
    if at < |n.arms| {
      KeptArmIsNamed(w, required, scope, n, m, at, growing, outside, named);
      KeptArmsAreNamed(w, required, scope, n, m, at + 1, Answering(PASS, n.arms[at].body, growing, outside).value, outside, named);
    }
  }

  /** A step with a number other than the list's put to every answer of it. */
  function AllBy(n: Node, number: nat): Node
    decreases n
  {
    match n
    case Read(_, ty) => Read(number, ty)
    case Widen(value, ty) => Widen(AllBy(value, number), ty)
    case Let(binding, binds, value, body, ty) => Let(binding, binds, value, AllBy(body, number), ty)
    case If(cond, yes, no, ty) => If(cond, AllBy(yes, number), AllBy(no, number), ty)
    case Match(subject, arms, ty) => Match(subject, seq(|arms|, i requires 0 <= i < |arms| => ArmBy(arms[i], number)), ty)
    case Call(reaches, arguments, ty) =>
      if reaches.GrowList? && |arguments| == 2 then Call(reaches, [NameBy(arguments[0], number), arguments[1]], ty) else n
    case _ => n
  }

  function ArmBy(arm: Arm, number: nat): Arm
    decreases arm
  {
    Arm(arm.selects, arm.binding, AllBy(arm.body, number))
  }

  function NameBy(a: Node, number: nat): Node {
    match a
    case Read(_, ty) => Read(number, ty)
    case Widen(Read(_, inner), ty) => Widen(Read(number, inner), ty)
    case _ => a
  }

  /** Nothing the pass asks is of which name an answer is. */
  lemma {:induction false} AllByPasses(n: Node, number: nat, growing: set<nat>, outside: set<nat>)
    requires Answering(PASS, n, growing, outside).Some? && number in growing
    ensures OtherNumbers(n, AllBy(n, number)) && Answering(PASS, AllBy(n, number), growing, outside) == Answering(PASS, n, growing, outside)
    decreases n, 1
  {
    match n
    case Widen(value, _) => AllByPasses(value, number, growing, outside);
    case Let(binding, _, value, body, _) =>
      AllByPasses(body, number, if NamesTheGrown(value, growing) then growing + {binding} else Ordinary(PASS, value, growing, outside).value, outside);
    case If(cond, yes, no, _) =>
      var g := Ordinary(PASS, cond, growing, outside).value;
      AllByPasses(yes, number, g, outside);
      AllByPasses(no, number, Answering(PASS, yes, g, outside).value, outside);
    case Match(subject, _, _) => ArmsByPass(n, number, 0, Ordinary(PASS, subject, growing, outside).value, outside);
    case _ =>
  }

  lemma {:induction false} ArmsByPass(n: Node, number: nat, at: nat, growing: set<nat>, outside: set<nat>)
    requires n.Match? && at <= |n.arms| && AnsweringArms(PASS, n, at, growing, outside).Some? && number in growing
    ensures forall i :: at <= i < |n.arms| ==> OtherNumbers(n.arms[i].body, AllBy(n.arms[i].body, number))
    ensures AnsweringArms(PASS, AllBy(n, number), at, growing, outside) == AnsweringArms(PASS, n, at, growing, outside)
    decreases n, 0, |n.arms| - at
  {
    if at < |n.arms| {
      var body := n.arms[at].body;
      assert body < n.arms[at] && AllBy(n, number).arms[at] == ArmBy(n.arms[at], number);
      AllByPasses(body, number, growing, outside);
      ArmsByPass(n, number, at + 1, Answering(PASS, body, growing, outside).value, outside);
    }
  }

  /** They are in force wherever the number is, and of the list nowhere the number is not. */
  lemma {:induction false} AllByAnswers(w: World, required: seq<string>, scope: Scope, n: Node, number: nat,
                                        growing: set<nat>, outside: set<nat>, named: set<nat>)
    requires Accepts(w, required, scope, n) && Answering(PASS, n, growing, outside).Some?
    requires number in scope && number !in named
    ensures AnswersInForce(AllBy(n, number), scope.Keys)
    ensures !Ends(n) ==> !AnswersNamed(AllBy(n, number), named)
    decreases n, 1
  {
    match n
    case Read(_, _) =>
    case Unreachable(_) =>
    case Widen(value, _) => AllByAnswers(w, required, scope, value, number, growing, outside, named);
    case Let(_, _, _, _, _) => LetByAnswers(w, required, scope, n, number, growing, outside, named);
    case If(cond, yes, no, _) =>
      var g := Ordinary(PASS, cond, growing, outside).value;
      AllByAnswers(w, required, scope, yes, number, g, outside, named);
      AllByAnswers(w, required, scope, no, number, Answering(PASS, yes, g, outside).value, outside, named);
    case Match(subject, _, _) =>
      ArmsByAnswer(w, required, scope, n, number, 0, Ordinary(PASS, subject, growing, outside).value, outside, named);
      MatchByArms(n, number, scope.Keys, named);
    case Call(_, _, _) =>
  }

  lemma {:induction false} LetByAnswers(w: World, required: seq<string>, scope: Scope, n: Node, number: nat,
                                        growing: set<nat>, outside: set<nat>, named: set<nat>)
    requires n.Let? && Accepts(w, required, scope, n) && Answering(PASS, n, growing, outside).Some?
    requires number in scope && number !in named
    ensures AnswersInForce(AllBy(n, number), scope.Keys)
    ensures !Ends(n) ==> !AnswersNamed(AllBy(n, number), named)
    decreases n, 0
  {
    var inner := scope[n.binding := n.binds];
    assert inner.Keys == scope.Keys + {n.binding};
    var after := if NamesTheGrown(n.value, growing) then growing + {n.binding} else Ordinary(PASS, n.value, growing, outside).value;
    var more := if NamesTheGrown(n.value, named) then named + {n.binding} else named;
    AllByAnswers(w, required, inner, n.body, number, after, outside, more);
  }

  /** An arm with the number put to its answers: in force, and of the list in no answer it comes to. */
  predicate ArmAnswersBy(arm: Arm, number: nat, force: set<nat>, named: set<nat>) {
    && AnswersInForce(AllBy(arm.body, number), force + NumbersOf(arm.binding))
    && (!Ends(arm.body) ==> !AnswersNamed(AllBy(arm.body, number), named))
  }

  lemma MatchByArms(n: Node, number: nat, force: set<nat>, named: set<nat>)
    requires n.Match?
    requires forall i :: 0 <= i < |n.arms| ==> ArmAnswersBy(n.arms[i], number, force, named)
    ensures AnswersInForce(AllBy(n, number), force) && (!Ends(n) ==> !AnswersNamed(AllBy(n, number), named))
  {
    var arms := AllBy(n, number).arms;
    assert forall i :: 0 <= i < |arms| ==> arms[i] == ArmBy(n.arms[i], number);
    if !Ends(n) {
      var i :| 0 <= i < |n.arms| && !Ends(n.arms[i].body);
      assert ArmAnswersBy(n.arms[i], number, force, named) && !AnswersNamed(arms[i].body, named);
    }
  }

  lemma {:induction false} ArmByAnswers(w: World, required: seq<string>, scope: Scope, n: Node, number: nat, at: nat,
                                        growing: set<nat>, outside: set<nat>, named: set<nat>)
    requires n.Match? && Accepts(w, required, scope, n) && at < |n.arms| && Answering(PASS, n.arms[at].body, growing, outside).Some?
    requires number in scope && number !in named
    ensures ArmAnswersBy(n.arms[at], number, scope.Keys, named)
    decreases n, 0, 0
  {
    var arm := n.arms[at];
    assert arm.body < arm && AcceptsArm(w, required, scope, n.subject.ty, arm, n.ty);
    var inner := ArmScope(scope, arm.binding).value;
    assert inner.Keys == scope.Keys + NumbersOf(arm.binding);
    AllByAnswers(w, required, inner, arm.body, number, growing, outside, named);
  }

  lemma {:induction false} ArmsByAnswer(w: World, required: seq<string>, scope: Scope, n: Node, number: nat, at: nat,
                                        growing: set<nat>, outside: set<nat>, named: set<nat>)
    requires n.Match? && Accepts(w, required, scope, n) && at <= |n.arms| && AnsweringArms(PASS, n, at, growing, outside).Some?
    requires number in scope && number !in named
    ensures forall i :: at <= i < |n.arms| ==> ArmAnswersBy(n.arms[i], number, scope.Keys, named)
    decreases n, 0, 1 + |n.arms| - at
  {
    if at < |n.arms| {
      ArmByAnswers(w, required, scope, n, number, at, growing, outside, named);
      ArmsByAnswer(w, required, scope, n, number, at + 1, Answering(PASS, n.arms[at].body, growing, outside).value, outside, named);
    }
  }

  // ----- a step like it that goes wrong -----

  /** A step is one of its own kind. */
  lemma {:induction false} ItselfIsOne(w: World, required: seq<string>, scope: Scope, n: Node, growing: set<nat>, outside: set<nat>)
    requires Accepts(w, required, scope, n) && Answering(PASS, n, growing, outside).Some?
    ensures OtherNumbers(n, n) && AnswersInForce(n, scope.Keys)
    decreases n, 1
  {
    match n
    case Read(_, _) =>
    case Unreachable(_) =>
    case Widen(value, _) => ItselfIsOne(w, required, scope, value, growing, outside);
    case Let(binding, binds, value, body, _) =>
      var inner := scope[binding := binds];
      assert inner.Keys == scope.Keys + {binding};
      var after := if NamesTheGrown(value, growing) then growing + {binding} else Ordinary(PASS, value, growing, outside).value;
      ItselfIsOne(w, required, inner, body, after, outside);
    case If(cond, yes, no, _) =>
      var g := Ordinary(PASS, cond, growing, outside).value;
      ItselfIsOne(w, required, scope, yes, g, outside);
      ItselfIsOne(w, required, scope, no, Answering(PASS, yes, g, outside).value, outside);
    case Match(subject, _, _) => ArmsAreOnes(w, required, scope, n, 0, Ordinary(PASS, subject, growing, outside).value, outside);
    case Call(_, arguments, _) => NamedIsInForce(w, required, scope, arguments[0], growing, scope.Keys);
  }

  lemma {:induction false} ArmsAreOnes(w: World, required: seq<string>, scope: Scope, n: Node, at: nat, growing: set<nat>, outside: set<nat>)
    requires n.Match? && Accepts(w, required, scope, n) && at <= |n.arms| && AnsweringArms(PASS, n, at, growing, outside).Some?
    ensures forall i :: at <= i < |n.arms| ==>
      OtherNumbers(n.arms[i].body, n.arms[i].body) && AnswersInForce(n.arms[i].body, scope.Keys + NumbersOf(n.arms[i].binding))
    decreases n, 0, |n.arms| - at
  {
    if at < |n.arms| {
      var arm := n.arms[at];
      assert arm.body < arm && AcceptsArm(w, required, scope, n.subject.ty, arm, n.ty);
      var inner := ArmScope(scope, arm.binding).value;
      assert inner.Keys == scope.Keys + NumbersOf(arm.binding);
      ItselfIsOne(w, required, inner, arm.body, growing, outside);
      ArmsAreOnes(w, required, scope, n, at + 1, Answering(PASS, arm.body, growing, outside).value, outside);
    }
  }

  /** Where no answer is come to there is no name to keep. */
  lemma {:induction false} EndsKeeps(n: Node, growing: set<nat>, outside: set<nat>)
    requires Ends(n) && Answering(PASS, n, growing, outside).Some?
    ensures KeepsNames(PASS, n, growing, outside)
    decreases n, 1
  {
    match n
    case Widen(value, _) => EndsKeeps(value, growing, outside);
    case Let(binding, _, value, body, _) =>
      EndsKeeps(body, if NamesTheGrown(value, growing) then growing + {binding} else Ordinary(PASS, value, growing, outside).value, outside);
    case If(cond, yes, no, _) =>
      var g := Ordinary(PASS, cond, growing, outside).value;
      EndsKeeps(yes, g, outside);
      EndsKeeps(no, Answering(PASS, yes, g, outside).value, outside);
    case Match(subject, _, _) => EndsKeepsArms(n, 0, Ordinary(PASS, subject, growing, outside).value, outside);
    case _ =>
  }

  lemma {:induction false} EndsKeepsArms(n: Node, at: nat, growing: set<nat>, outside: set<nat>)
    requires n.Match? && Ends(n) && at <= |n.arms| && AnsweringArms(PASS, n, at, growing, outside).Some?
    ensures ArmsKeepNames(PASS, n, at, growing, outside)
    decreases n, 0, |n.arms| - at
  {
    if at < |n.arms| {
      assert n.arms[at].body < n.arms[at];
      EndsKeeps(n.arms[at].body, growing, outside);
      EndsKeepsArms(n, at + 1, Answering(PASS, n.arms[at].body, growing, outside).value, outside);
    }
  }

  /** `m` shows a step to go wrong: it is one of its kind, the pass lets it by as it does the step, and an
      answer of it is of no name of the list. */
  predicate GoesWrong(n: Node, m: Node, force: set<nat>, growing: set<nat>, outside: set<nat>, named: set<nat>) {
    && OtherNumbers(n, m) && AnswersInForce(m, force)
    && Answering(PASS, m, growing, outside) == Answering(PASS, n, growing, outside)
    && !AnswersNamed(m, named)
  }

  lemma {:induction false} OneGoesWrong(w: World, required: seq<string>, scope: Scope, n: Node,
                                        growing: set<nat>, outside: set<nat>, named: set<nat>) returns (m: Node)
    requires Accepts(w, required, scope, n) && Answering(PASS, n, growing, outside).Some? && !KeepsNames(PASS, n, growing, outside)
    requires named <= growing && named <= scope.Keys && forall x :: x in growing && x in scope ==> x in named
    ensures GoesWrong(n, m, scope.Keys, growing, outside, named)
    decreases n, 1
  {
    match n
    case Widen(value, ty) =>
      var wrong := OneGoesWrong(w, required, scope, value, growing, outside, named);
      m := Widen(wrong, ty);
    case Let(_, _, _, _, _) => m := LetGoesWrong(w, required, scope, n, growing, outside, named);
    case If(_, _, _, _) => m := ForkGoesWrong(w, required, scope, n, growing, outside, named);
    case Match(_, _, _) => m := MatchGoesWrong(w, required, scope, n, growing, outside, named);
  }

  lemma {:induction false} MatchGoesWrong(w: World, required: seq<string>, scope: Scope, n: Node,
                                          growing: set<nat>, outside: set<nat>, named: set<nat>) returns (m: Node)
    requires n.Match?
    requires Accepts(w, required, scope, n) && Answering(PASS, n, growing, outside).Some? && !KeepsNames(PASS, n, growing, outside)
    requires named <= growing && named <= scope.Keys && forall x :: x in growing && x in scope ==> x in named
    ensures GoesWrong(n, m, scope.Keys, growing, outside, named)
    decreases n, 0
  {
    OrdinaryStays(w, required, scope, n.subject, PASS, growing, outside);
    var arms := ArmGoesWrong(w, required, scope, n, 0, Ordinary(PASS, n.subject, growing, outside).value, outside, named);
    m := Match(n.subject, arms, n.ty);
    assert forall i :: 0 <= i < |arms| ==> arms[i].binding == n.arms[i].binding;
  }

  lemma {:induction false} LetGoesWrong(w: World, required: seq<string>, scope: Scope, n: Node,
                                        growing: set<nat>, outside: set<nat>, named: set<nat>) returns (m: Node)
    requires n.Let?
    requires Accepts(w, required, scope, n) && Answering(PASS, n, growing, outside).Some? && !KeepsNames(PASS, n, growing, outside)
    requires named <= growing && named <= scope.Keys && forall x :: x in growing && x in scope ==> x in named
    ensures GoesWrong(n, m, scope.Keys, growing, outside, named)
    decreases n, 0
  {
    var inner := scope[n.binding := n.binds];
    assert inner.Keys == scope.Keys + {n.binding};
    var wrong: Node;
    if NamesTheGrown(n.value, growing) {
      NamedIsInForce(w, required, scope, n.value, growing, named);
      wrong := OneGoesWrong(w, required, inner, n.body, growing + {n.binding}, outside, named + {n.binding});
    } else {
      OrdinaryStays(w, required, scope, n.value, PASS, growing, outside);
      var g := Ordinary(PASS, n.value, growing, outside).value;
      if n.binding in g && !Ends(n.body) {
        wrong := AllBy(n.body, n.binding);
        AllByPasses(n.body, n.binding, g, outside);
        AllByAnswers(w, required, inner, n.body, n.binding, g, outside, named);
      } else {
        if Ends(n.body) { EndsKeeps(n.body, g, outside); }
        wrong := OneGoesWrong(w, required, inner, n.body, g, outside, named);
      }
    }
    m := Let(n.binding, n.binds, n.value, wrong, n.ty);
  }

  lemma {:induction false} ForkGoesWrong(w: World, required: seq<string>, scope: Scope, n: Node,
                                         growing: set<nat>, outside: set<nat>, named: set<nat>) returns (m: Node)
    requires n.If?
    requires Accepts(w, required, scope, n) && Answering(PASS, n, growing, outside).Some? && !KeepsNames(PASS, n, growing, outside)
    requires named <= growing && named <= scope.Keys && forall x :: x in growing && x in scope ==> x in named
    ensures GoesWrong(n, m, scope.Keys, growing, outside, named)
    decreases n, 0
  {
    OrdinaryStays(w, required, scope, n.cond, PASS, growing, outside);
    var g := Ordinary(PASS, n.cond, growing, outside).value;
    var h := Answering(PASS, n.yes, g, outside).value;
    AnsweringStays(w, required, scope, n.yes, PASS, g, outside);
    ItselfIsOne(w, required, scope, n.yes, g, outside);
    ItselfIsOne(w, required, scope, n.no, h, outside);
    if !KeepsNames(PASS, n.yes, g, outside) {
      var wrong := OneGoesWrong(w, required, scope, n.yes, g, outside, named);
      m := If(n.cond, wrong, n.no, n.ty);
    } else {
      var wrong := OneGoesWrong(w, required, scope, n.no, h, outside, named);
      m := If(n.cond, n.yes, wrong, n.ty);
    }
  }

  /** The pass over arms reads those from `at` on alone. */
  lemma {:induction false} ArmsFrom(n: Node, m: Node, at: nat, growing: set<nat>, outside: set<nat>)
    requires n.Match? && m.Match? && |m.arms| == |n.arms| && at <= |n.arms|
    requires forall i :: at <= i < |n.arms| ==> m.arms[i] == n.arms[i]
    ensures AnsweringArms(PASS, m, at, growing, outside) == AnsweringArms(PASS, n, at, growing, outside)
    decreases |n.arms| - at
  {
    if at < |n.arms| && Answering(PASS, n.arms[at].body, growing, outside).Some? {
      ArmsFrom(n, m, at + 1, Answering(PASS, n.arms[at].body, growing, outside).value, outside);
    }
  }

  /** Arms which show a match to go wrong from `at` on, those before it as they were. */
  predicate ArmsGoWrong(n: Node, arms: seq<Arm>, at: nat, force: set<nat>, growing: set<nat>, outside: set<nat>, named: set<nat>)
    requires n.Match? && at <= |n.arms|
  {
    && |arms| == |n.arms| && arms[..at] == n.arms[..at]
    && (forall i :: at <= i < |arms| ==>
          && arms[i] == n.arms[i].(body := arms[i].body) && OtherNumbers(n.arms[i].body, arms[i].body)
          && AnswersInForce(arms[i].body, force + NumbersOf(arms[i].binding)))
    && AnsweringArms(PASS, Match(n.subject, arms, n.ty), at, growing, outside) == AnsweringArms(PASS, n, at, growing, outside)
    && exists i :: at <= i < |arms| && !AnswersNamed(arms[i].body, named)
  }

  lemma {:induction false} ArmGoesWrong(w: World, required: seq<string>, scope: Scope, n: Node, at: nat,
                                        growing: set<nat>, outside: set<nat>, named: set<nat>) returns (arms: seq<Arm>)
    requires n.Match? && Accepts(w, required, scope, n) && at <= |n.arms|
    requires AnsweringArms(PASS, n, at, growing, outside).Some? && !ArmsKeepNames(PASS, n, at, growing, outside)
    requires named <= growing && named <= scope.Keys && forall x :: x in growing && x in scope ==> x in named
    ensures ArmsGoWrong(n, arms, at, scope.Keys, growing, outside, named)
    decreases n, 0, |n.arms| - at
  {
    var arm := n.arms[at];
    assert arm.body < arm && AcceptsArm(w, required, scope, n.subject.ty, arm, n.ty);
    var inner := ArmScope(scope, arm.binding).value;
    assert inner.Keys == scope.Keys + NumbersOf(arm.binding);
    AnsweringStays(w, required, inner, arm.body, PASS, growing, outside);
    ArmsAreOnes(w, required, scope, n, at, growing, outside);
    if Ends(arm.body) { EndsKeeps(arm.body, growing, outside); }
    if (NumbersOf(arm.binding) !! growing || Ends(arm.body)) && KeepsNames(PASS, arm.body, growing, outside) {
      arms := ArmGoesWrong(w, required, scope, n, at + 1, Answering(PASS, arm.body, growing, outside).value, outside, named);
      LaterGoesWrong(n, arms, at, scope.Keys, growing, outside, named);
    } else {
      var wrong := ThisArmGoesWrong(w, required, inner, arm, growing, outside, named);
      arms := n.arms[at := Arm(arm.selects, arm.binding, wrong)];
      FirstGoesWrong(n, wrong, at, scope.Keys, growing, outside, named);
    }
  }

  lemma LaterGoesWrong(n: Node, arms: seq<Arm>, at: nat, force: set<nat>, growing: set<nat>, outside: set<nat>, named: set<nat>)
    requires n.Match? && at < |n.arms| && Answering(PASS, n.arms[at].body, growing, outside).Some?
    requires ArmsGoWrong(n, arms, at + 1, force, Answering(PASS, n.arms[at].body, growing, outside).value, outside, named)
    requires OtherNumbers(n.arms[at].body, n.arms[at].body)
    requires AnswersInForce(n.arms[at].body, force + NumbersOf(n.arms[at].binding))
    ensures ArmsGoWrong(n, arms, at, force, growing, outside, named)
  {
    assert arms[at] == arms[..at + 1][at] == n.arms[at];
    assert arms[..at] == arms[..at + 1][..at] == n.arms[..at];
  }

  lemma FirstGoesWrong(n: Node, wrong: Node, at: nat, force: set<nat>, growing: set<nat>, outside: set<nat>, named: set<nat>)
    requires n.Match? && at < |n.arms| && AnsweringArms(PASS, n, at, growing, outside).Some?
    requires GoesWrong(n.arms[at].body, wrong, force + NumbersOf(n.arms[at].binding), growing, outside, named)
    requires forall i :: at <= i < |n.arms| ==>
      OtherNumbers(n.arms[i].body, n.arms[i].body) && AnswersInForce(n.arms[i].body, force + NumbersOf(n.arms[i].binding))
    ensures ArmsGoWrong(n, n.arms[at := Arm(n.arms[at].selects, n.arms[at].binding, wrong)], at, force, growing, outside, named)
  {
    var arms := n.arms[at := Arm(n.arms[at].selects, n.arms[at].binding, wrong)];
    ArmsFrom(n, Match(n.subject, arms, n.ty), at + 1, Answering(PASS, n.arms[at].body, growing, outside).value, outside);
    assert !AnswersNamed(arms[at].body, named);
  }

  lemma {:induction false} ThisArmGoesWrong(w: World, required: seq<string>, inner: Scope, arm: Arm,
                                            growing: set<nat>, outside: set<nat>, named: set<nat>) returns (wrong: Node)
    requires Accepts(w, required, inner, arm.body) && Answering(PASS, arm.body, growing, outside).Some? && !Ends(arm.body)
    requires !(NumbersOf(arm.binding) !! growing) || !KeepsNames(PASS, arm.body, growing, outside)
    requires NumbersOf(arm.binding) <= inner.Keys && NumbersOf(arm.binding) !! named && named <= growing && named <= inner.Keys
    requires forall x :: x in growing && x in inner && x !in NumbersOf(arm.binding) ==> x in named
    ensures GoesWrong(arm.body, wrong, inner.Keys, growing, outside, named)
    decreases arm, 0
  {
    if number :| number in NumbersOf(arm.binding) && number in growing {
      wrong := AllBy(arm.body, number);
      AllByPasses(arm.body, number, growing, outside);
      AllByAnswers(w, required, inner, arm.body, number, growing, outside, named);
    } else {
      wrong := OneGoesWrong(w, required, inner, arm.body, growing, outside, named);
    }
  }

  /** The names of a step are kept exactly where the pass cannot be misled about it: every step that is it
      but for the numbers it answers by, all in force there, and that the pass lets by, answers by names of
      its list alone. */
  lemma KeptExactly(w: World, required: seq<string>, scope: Scope, n: Node, growing: set<nat>, outside: set<nat>, named: set<nat>)
    requires Accepts(w, required, scope, n) && Answering(PASS, n, growing, outside).Some?
    requires named <= growing && named <= scope.Keys && forall x :: x in growing && x in scope ==> x in named
    ensures KeepsNames(PASS, n, growing, outside) <==>
      forall m: Node :: OtherNumbers(n, m) && AnswersInForce(m, scope.Keys) && Answering(PASS, m, growing, outside).Some?
        ==> AnswersNamed(m, named)
  {
    if KeepsNames(PASS, n, growing, outside) {
      forall m: Node | OtherNumbers(n, m) && AnswersInForce(m, scope.Keys) && Answering(PASS, m, growing, outside).Some?
        ensures AnswersNamed(m, named)
      {
        KeptAreNamed(w, required, scope, n, m, growing, outside, named);
      }
    } else {
      var m := OneGoesWrong(w, required, scope, n, growing, outside, named);
      assert OtherNumbers(n, m) && !AnswersNamed(m, named);
    }
  }

  /** The same from the outset of a list's step, where its one name is the accumulator's. */
  lemma StepsKeptExactly(w: World, required: seq<string>, scope: Scope, node: Node, outside: set<nat>)
    requires Accepts(w, required, scope, node) && node.Walk? && node.builds.BuildsList?
    requires Answering(PASS, node.body, {node.grown}, outside).Some?
    ensures var force := AroundScope(w, required, scope, node.around).value.Keys + {node.grown, node.each};
      KeepsNames(PASS, node.body, {node.grown}, outside) <==>
      forall m: Node :: OtherNumbers(node.body, m) && AnswersInForce(m, force) && Answering(PASS, m, {node.grown}, outside).Some?
        ==> AnswersNamed(m, {node.grown})
  {
    var inner := AroundScope(w, required, scope, node.around).value;
    EnteringTwo(inner, node.grown, node.each, node.takes);
    var stepping := inner[node.grown := node.takes[0]][node.each := node.takes[1]];
    assert stepping.Keys == inner.Keys + {node.grown, node.each};
    KeptExactly(w, required, stepping, node.body, {node.grown}, outside, {node.grown});
  }
}
