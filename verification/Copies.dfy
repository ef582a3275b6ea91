/** Values copied by taking them apart and putting them together again: for each type there is a node that
    does so, every document may write it anywhere, and it comes to the value it was handed. */
module Copies {
  import opened Options
  import opened Transport
  import opened Growing
  import opened Machine
  import opened Coherence
  import opened Typing
  import Laws
  import Walks

  /** The value under `at` taken apart and built again, with names from `next` up: a truth by telling it,
      an optional by its arms, a tuple by its members and a list by a walk; the rest is read. */
  function Copy(ty: Ty, at: nat, next: nat): (r: Node)
    ensures r.ty == ty
    decreases ty
  {
    match ty
    case Prim(prim) => if prim.BoolPrim? then If(Read(at, ty), Literal(Truth(true), ty), Literal(Truth(false), ty), ty) else Read(at, ty)
    case Optional(held) => ByArms(ty, at, next, Copy(held, next, next + 1))
    case Tuple(members) =>
      TupleNode(seq(|members|, i requires 0 <= i < |members| => ByMember(ty, at, next, i, Copy(members[i], next, next + 1))), ty)
    case List(element) => ByWalk(ty, at, next, Copy(element, next + 1, next + 2))
    case _ => Read(at, ty)
  }

  /** What is held under `next`, where there is something, built again from `inner`. */
  function ByArms(ty: Ty, at: nat, next: nat, inner: Node): Node {
    Match(Read(at, ty), [Arm([Held], Payload(next, inner.ty), PresentNode(inner, ty)), Arm([Absence], NoName, AbsentNode(ty))], ty)
  }

  function ByMember(ty: Ty, at: nat, next: nat, i: nat, inner: Node): Node {
    Let(next, inner.ty, Member(Read(at, ty), i, inner.ty), inner, inner.ty)
  }

  function ByWalk(ty: Ty, at: nat, next: nat, inner: Node): Node {
    Walk(BuildsList, [], next, next + 1, Walks.Adding(next, inner, ty), [ty, inner.ty], ty, Read(at, ty),
         Literal(Whole(0), Prim(IntPrim)), ty)
  }

  // ----- it may be written anywhere -----

  predicate NumbersBelow(scope: Scope, next: nat) {
    forall x :: x in scope ==> x < next
  }

  lemma {:induction false} CopyStands(w: World, required: seq<string>, scope: Scope, ty: Ty, at: nat, next: nat)
    requires at in scope && scope[at] == ty && NumbersBelow(scope, next)
    ensures Accepts(w, required, scope, Copy(ty, at, next))
    decreases ty, 1
  {
    if ty.Optional? {
      OptionalCopyStands(w, required, scope, ty, at, next);
    } else if ty.Tuple? {
      TupleCopyStands(w, required, scope, ty, at, next);
    } else if ty.List? {
      ListCopyStands(w, required, scope, ty, at, next);
    } else {
      PlainCopyStands(w, required, scope, ty, at, next);
    }
  }

  lemma PlainCopyStands(w: World, required: seq<string>, scope: Scope, ty: Ty, at: nat, next: nat)
    requires !ty.Optional? && !ty.Tuple? && !ty.List? && at in scope && scope[at] == ty
    ensures Accepts(w, required, scope, Copy(ty, at, next))
  {
  }

  lemma {:induction false} OptionalCopyStands(w: World, required: seq<string>, scope: Scope, ty: Ty, at: nat, next: nat)
    requires ty.Optional? && at in scope && scope[at] == ty && NumbersBelow(scope, next)
    ensures Accepts(w, required, scope, Copy(ty, at, next))
    decreases ty, 0
  {
    hide Accepts;
    CopyStands(w, required, scope[next := ty.held], ty.held, next, next + 1);
    ArmsStand(w, required, scope, ty, at, next, Copy(ty.held, next, next + 1));
  }

  lemma {:induction false} ListCopyStands(w: World, required: seq<string>, scope: Scope, ty: Ty, at: nat, next: nat)
    requires ty.List? && at in scope && scope[at] == ty && NumbersBelow(scope, next)
    ensures Accepts(w, required, scope, Copy(ty, at, next))
    decreases ty, 0
  {
    hide Accepts;
    CopyStands(w, required, scope[next := ty][next + 1 := ty.element], ty.element, next + 1, next + 2);
    WalkStands(w, required, scope, ty, at, next, Copy(ty.element, next + 1, next + 2));
  }

  lemma {:induction false} TupleCopyStands(w: World, required: seq<string>, scope: Scope, ty: Ty, at: nat, next: nat)
    requires ty.Tuple? && at in scope && scope[at] == ty && NumbersBelow(scope, next)
    ensures Accepts(w, required, scope, Copy(ty, at, next))
    decreases ty, 0
  {
    hide Accepts;
    forall i | 0 <= i < |ty.members|
      ensures Accepts(w, required, scope, ByMember(ty, at, next, i, Copy(ty.members[i], next, next + 1)))
    {
      CopyStands(w, required, scope[next := ty.members[i]], ty.members[i], next, next + 1);
      MemberStands(w, required, scope, ty, at, next, i, Copy(ty.members[i], next, next + 1));
    }
    TupleStands(w, required, scope, Copy(ty, at, next));
  }

  lemma ArmsStand(w: World, required: seq<string>, scope: Scope, ty: Ty, at: nat, next: nat, inner: Node)
    requires ty.Optional? && at in scope && scope[at] == ty && next !in scope
    requires inner.ty == ty.held && Accepts(w, required, scope[next := ty.held], inner)
    ensures Accepts(w, required, scope, ByArms(ty, at, next, inner))
  {
    var held, absent := Arm([Held], Payload(next, inner.ty), PresentNode(inner, ty)), Arm([Absence], NoName, AbsentNode(ty));
    Laws.PresentAccepted(w, required, scope[next := ty.held], inner);
    Laws.HeldArm(w, required, scope, ty.held, held, ty);
    Laws.AbsentArm(w, required, scope, ty.held, absent, ty);
    Laws.TwoArms(w, required, scope, Read(at, ty), held, absent, ty);
  }

  lemma MemberStands(w: World, required: seq<string>, scope: Scope, ty: Ty, at: nat, next: nat, i: nat, inner: Node)
    requires ty.Tuple? && at in scope && scope[at] == ty && next !in scope && i < |ty.members|
    requires inner.ty == ty.members[i] && Accepts(w, required, scope[next := inner.ty], inner)
    ensures Accepts(w, required, scope, ByMember(ty, at, next, i, inner))
  {
    assert Accepts(w, required, scope, Member(Read(at, ty), i, inner.ty));
  }

  lemma TupleStands(w: World, required: seq<string>, scope: Scope, node: Node)
    requires node.TupleNode? && node.ty.Tuple? && TypedAs(node.nodes, node.ty.members)
    requires forall i :: 0 <= i < |node.nodes| ==> Accepts(w, required, scope, node.nodes[i])
    ensures Accepts(w, required, scope, node)
  {
  }

  lemma WalkStands(w: World, required: seq<string>, scope: Scope, ty: Ty, at: nat, next: nat, inner: Node)
    requires ty.List? && at in scope && scope[at] == ty && NumbersBelow(scope, next) && inner.ty == ty.element
    requires Accepts(w, required, scope[next := ty][next + 1 := ty.element], inner)
    ensures Accepts(w, required, scope, ByWalk(ty, at, next, inner))
  {
    hide Accepts;
    AddingStands(w, required, scope[next := ty][next + 1 := ty.element], next, inner, ty);
    WalkedStands(w, required, scope, ty, ByWalk(ty, at, next, inner));
  }

  lemma WalkedStands(w: World, required: seq<string>, scope: Scope, ty: Ty, node: Node)
    requires node.Walk? && node.around == [] && node.builds.BuildsList? && ty.List?
    requires node.takes == [ty, ty.element] && node.answers == ty && node.ty == ty && node.body.ty == ty
    requires NumbersBelow(scope, node.grown) && node.each == node.grown + 1
    requires node.walked.Read? && node.walked.ty == ty && node.walked.binding in scope && scope[node.walked.binding] == ty
    requires node.from.Literal? && node.from.scalar.Whole? && node.from.ty == Prim(IntPrim)
    requires Accepts(w, required, scope[node.grown := ty][node.each := ty.element], node.body)
    ensures Accepts(w, required, scope, node)
  {
    PlainWalkStands(w, required, scope, node);
  }

  /** Something added to a list being grown is accepted exactly where what is added is. */
  lemma AddingStands(w: World, required: seq<string>, scope: Scope, grown: nat, item: Node, ty: Ty)
    requires ty.List? && grown in scope && scope[grown] == ty
    ensures Accepts(w, required, scope, Walks.Adding(grown, item, ty)) <==> Accepts(w, required, scope, item) && item.ty == ty.element
  {
    var list := ListNode([item], ty);
    assert Accepts(w, required, scope, list) <==> Accepts(w, required, scope, item) && item.ty == ty.element by {
      assert list.nodes[0] == item;
    }
    TwoArgumentsStand(w, required, scope, Walks.Adding(grown, item, ty));
  }

  lemma TwoArgumentsStand(w: World, required: seq<string>, scope: Scope, node: Node)
    requires node.Call? && node.reaches.GrowList? && |node.arguments| == 2 && node.ty.List?
    requires node.arguments[0].ty == node.ty && node.arguments[1].ty == node.ty
    ensures Accepts(w, required, scope, node)
       <==> Accepts(w, required, scope, node.arguments[0]) && Accepts(w, required, scope, node.arguments[1])
  {
    hide Accepts;
    CallAccepted(w, required, scope, node);
    assert TypedAs(node.arguments, [node.ty, node.ty]);
    assert AcceptsAll(w, required, scope, node.arguments) <==>
      Accepts(w, required, scope, node.arguments[0]) && Accepts(w, required, scope, node.arguments[1]);
  }

  lemma CallAccepted(w: World, required: seq<string>, scope: Scope, node: Node)
    requires node.Call?
    ensures Accepts(w, required, scope, node) <==>
      AcceptsAll(w, required, scope, node.arguments) && CallStands(w, required, node.reaches, node.arguments, node.ty)
  {
  }

  /** The pass over where a step may name its list lets it by and leaves its names as they were. */
  lemma {:induction false} CopyOrdinary(steps: Steps, ty: Ty, at: nat, next: nat, growing: set<nat>, outside: set<nat>)
    requires at !in growing && at !in outside && forall x :: x in growing || x in outside ==> x < next
    ensures Leaves(steps, Copy(ty, at, next), growing, outside)
    decreases ty
  {
    var node := Copy(ty, at, next);
    assert Leaves(steps, Read(at, ty), growing, outside);
    match ty
    case Prim(_) => if ty.prim.BoolPrim? { BooleanLeaves(steps, ty, at, growing, outside); }
    case Optional(held) =>
      CopyOrdinary(steps, held, next, next + 1, growing, outside);
      ArmsLeave(steps, ty, at, next, Copy(held, next, next + 1), growing, outside);
    case Tuple(members) =>
      forall i | 0 <= i < |members| ensures Leaves(steps, Children(node)[i], growing, outside) {
        CopyOrdinary(steps, members[i], next, next + 1, growing, outside);
        MemberLeaves(steps, ty, at, next, i, Copy(members[i], next, next + 1), growing, outside);
      }
      AllLeave(steps, node, growing, outside);
    case List(element) =>
      CopyOrdinary(steps, element, next + 1, next + 2, {next}, growing + outside);
      WalkLeaves(steps, ty, at, next, Copy(element, next + 1, next + 2), growing, outside);
    case _ =>
  }

  /** Let by outside the answers of a step, its names left as they were. */
  predicate Leaves(steps: Steps, node: Node, growing: set<nat>, outside: set<nat>) {
    Ordinary(steps, node, growing, outside) == Some(growing)
  }

  /** A node none of whose children changes the names changes none. */
  lemma {:induction false} FromLeaves(steps: Steps, node: Node, from: nat, growing: set<nat>, outside: set<nat>)
    requires from <= |Children(node)|
    requires forall i :: from <= i < |Children(node)| ==> Leaves(steps, Children(node)[i], growing, outside)
    ensures OrdinaryFrom(steps, node, from, growing, outside) == Some(growing)
    decreases |Children(node)| - from
  {
    if from < |Children(node)| { FromLeaves(steps, node, from + 1, growing, outside); }
  }

  lemma AllLeave(steps: Steps, node: Node, growing: set<nat>, outside: set<nat>)
    requires !node.Read? && !node.Walk? && !(node.Call? && node.reaches.GrowList?)
    requires !(node.Let? && NamesTheGrown(node.value, growing))
    requires forall i :: 0 <= i < |Children(node)| ==> Leaves(steps, Children(node)[i], growing, outside)
    ensures Leaves(steps, node, growing, outside)
  {
    FromLeaves(steps, node, 0, growing, outside);
  }

  lemma BooleanLeaves(steps: Steps, ty: Ty, at: nat, growing: set<nat>, outside: set<nat>)
    requires at !in growing && at !in outside
    ensures Leaves(steps, If(Read(at, ty), Literal(Truth(true), ty), Literal(Truth(false), ty), ty), growing, outside)
  {
    AllLeave(steps, Literal(Truth(true), ty), growing, outside);
    AllLeave(steps, Literal(Truth(false), ty), growing, outside);
    AllLeave(steps, If(Read(at, ty), Literal(Truth(true), ty), Literal(Truth(false), ty), ty), growing, outside);
  }

  lemma ArmsLeave(steps: Steps, ty: Ty, at: nat, next: nat, inner: Node, growing: set<nat>, outside: set<nat>)
    requires at !in growing && at !in outside && Leaves(steps, inner, growing, outside)
    ensures Leaves(steps, ByArms(ty, at, next, inner), growing, outside)
  {
    AllLeave(steps, PresentNode(inner, ty), growing, outside);
    AllLeave(steps, AbsentNode(ty), growing, outside);
    AllLeave(steps, ByArms(ty, at, next, inner), growing, outside);
  }

  lemma MemberLeaves(steps: Steps, ty: Ty, at: nat, next: nat, i: nat, inner: Node, growing: set<nat>, outside: set<nat>)
    requires at !in growing && at !in outside && Leaves(steps, inner, growing, outside)
    ensures Leaves(steps, ByMember(ty, at, next, i, inner), growing, outside)
  {
    AllLeave(steps, Member(Read(at, ty), i, inner.ty), growing, outside);
    AllLeave(steps, ByMember(ty, at, next, i, inner), growing, outside);
  }

  lemma WalkLeaves(steps: Steps, ty: Ty, at: nat, next: nat, inner: Node, growing: set<nat>, outside: set<nat>)
    requires at !in growing && at !in outside && Leaves(steps, inner, {next}, growing + outside)
    ensures Leaves(steps, ByWalk(ty, at, next, inner), growing, outside)
  {
    AllLeave(steps, ListNode([inner], ty), {next}, growing + outside);
    AllLeave(steps, Literal(Whole(0), Prim(IntPrim)), growing, outside);
    WalkedLeaves(steps, ByWalk(ty, at, next, inner), growing, outside);
  }

  /** A walk with nothing bound around its step, which adds something: it leaves the names as they were
      where what it adds, what it walks and where it begins do. */
  lemma WalkedLeaves(steps: Steps, node: Node, growing: set<nat>, outside: set<nat>)
    requires node.Walk? && node.builds.BuildsList? && node.around == []
    requires node.body.Call? && node.body.reaches.GrowList? && |node.body.arguments| == 2
    requires node.body.arguments[0].Read? && node.body.arguments[0].binding == node.grown
    requires Leaves(steps, node.body.arguments[1], {node.grown}, growing + outside)
    requires Leaves(steps, node.walked, growing, outside) && Leaves(steps, node.from, growing, outside)
    ensures Leaves(steps, node, growing, outside)
  {
    assert OrdinaryAround(steps, node, 0, growing, outside) == Some(growing);
    assert Answering(steps, node.body, {node.grown}, growing + outside) == Some({node.grown});
    assert KeepsNames(steps, node.body, {node.grown}, growing + outside);
  }

  /** A step that keeps some elements is let by too, and answers by its names alone. */
  lemma KeepingAnswers(steps: Steps, grown: nat, each: nat, cond: Node, elementTy: Ty, ty: Ty, outside: set<nat>)
    requires grown != each && each !in outside && Leaves(steps, cond, {grown}, outside)
    ensures Answering(steps, Walks.Keeping(grown, each, cond, elementTy, ty), {grown}, outside) == Some({grown})
    ensures KeepsNames(steps, Walks.Keeping(grown, each, cond, elementTy, ty), {grown}, outside)
  {
    var node := Walks.Keeping(grown, each, cond, elementTy, ty);
    AllLeave(steps, ListNode([Read(each, elementTy)], ty), {grown}, outside);
    assert Answering(steps, node.yes, {grown}, outside) == Some({grown});
    assert KeepsNames(steps, node.yes, {grown}, outside) && KeepsNames(steps, node.no, {grown}, outside);
  }

  /** So every document of one definition that answers a copy of what it takes is accepted. */
  lemma CopyIsAccepted(w: World, ty: Ty)
    ensures AcceptsBody(w, [], [ty], Copy(ty, 0, 1))
  {
    CopyStands(w, [], PositionalTypes([ty]), ty, 0, 1);
    CopyOrdinary(PASS, ty, 0, 1, {}, {});
  }

  // ----- it comes to the value -----

  /** Whatever the value of the type, under whatever frame and with whatever steps, the copy is the value,
      at no cost. */
  lemma {:induction false} CopyIsTheValue(p: Policy, w: World, k: nat, j: nat, v: Value, ty: Ty, at: nat, next: nat, f: Frame)
    requires Of(w, j, v, ty) && at in f.bindings && f.bindings[at] == v
    ensures Eval(p, w, k, Copy(ty, at, next), f) == Answered(v, k)
    decreases ty, 1
  {
    if ty.Optional? {
      if v.PresentOf? { CopyIsTheValue(p, w, k, j, v.value, ty.held, next, next + 1, Bind(f, map[next := v.value])); }
      ArmsAnswer(p, w, k, v, ty, at, next, Copy(ty.held, next, next + 1), f);
    } else if ty.Tuple? {
      TupleCopied(p, w, k, j, v, ty, at, next, f);
    } else if ty.List? {
      ListCopied(p, w, k, j, v, ty, at, next, f);
    } else {
      PlainCopied(p, w, k, j, v, ty, at, next, f);
    }
  }

  lemma PlainCopied(p: Policy, w: World, k: nat, j: nat, v: Value, ty: Ty, at: nat, next: nat, f: Frame)
    requires !ty.Optional? && !ty.Tuple? && !ty.List? && Of(w, j, v, ty) && at in f.bindings && f.bindings[at] == v
    ensures Eval(p, w, k, Copy(ty, at, next), f) == Answered(v, k)
  {
    assert Eval(p, w, k, Read(at, ty), f) == Answered(v, k);
  }

  lemma ArmsAnswer(p: Policy, w: World, k: nat, v: Value, ty: Ty, at: nat, next: nat, inner: Node, f: Frame)
    requires ty.Optional? && (v.PresentOf? || v.AbsentOf?) && (v.PresentOf? ==> !HasNoValue(ty.held))
    requires at in f.bindings && f.bindings[at] == v
    requires v.PresentOf? ==> Eval(p, w, k, inner, Bind(f, map[next := v.value])) == Answered(v.value, k)
    ensures Eval(p, w, k, ByArms(ty, at, next, inner), f) == Answered(v, k)
  {
    hide Eval, EvalArms;
    var held, absent := Arm([Held], Payload(next, inner.ty), PresentNode(inner, ty)), Arm([Absence], NoName, AbsentNode(ty));
    MatchOfRead(p, w, k, ByArms(ty, at, next, inner), f);
    if v.PresentOf? {
      HeldArmTaken(p, w, k, v, ty, held, [held, absent], f);
      Laws.PresentIs(p, w, k, held.body, Bind(f, map[next := v.value]));
    } else {
      AbsentArmTaken(p, w, k, ty, held, absent, f);
      AbsentIs(p, w, k, absent.body, f);
    }
  }

  lemma MatchOfRead(p: Policy, w: World, k: nat, node: Node, f: Frame)
    requires node.Match? && node.subject.Read? && node.subject.binding in f.bindings
    ensures Eval(p, w, k, node, f) == EvalArms(p, w, k, f.bindings[node.subject.binding], node.subject.ty, node.arms, f)
  {
    Laws.MatchIs(p, w, k, node, f);
    hide EvalArms;
  }

  lemma AbsentIs(p: Policy, w: World, k: nat, node: Node, f: Frame)
    requires node.AbsentNode?
    ensures Eval(p, w, k, node, f) == Answered(AbsentOf, k)
  {
  }

  /** The arm for something held is taken where something is, under what is held. */
  lemma HeldArmTaken(p: Policy, w: World, k: nat, v: Value, subject: Ty, arm: Arm, arms: seq<Arm>, f: Frame)
    requires v.PresentOf? && arms != [] && arms[0] == arm && arm.selects == [Held] && arm.binding.Payload?
    requires subject.Optional? && !HasNoValue(subject.held)
    ensures EvalArms(p, w, k, v, subject, arms, f) == Eval(p, w, k, arm.body, Bind(f, map[arm.binding.number := v.value]))
  {
    Laws.OneTest(v, Held);
  }

  /** And the one for nothing held where nothing is, after an arm for something. */
  lemma AbsentArmTaken(p: Policy, w: World, k: nat, subject: Ty, held: Arm, absent: Arm, f: Frame)
    requires held.selects == [Held] && absent.selects == [Absence] && absent.binding.NoName?
    ensures EvalArms(p, w, k, AbsentOf, subject, [held, absent], f) == Eval(p, w, k, absent.body, f)
  {
    var arms := [held, absent];
    Laws.OneTest(AbsentOf, Held);
    Laws.OneTest(AbsentOf, Absence);
    assert arms[1..] == [absent] && arms[1..][0] == absent;
    assert Bind(f, map[]) == f;
    assert EvalArms(p, w, k, AbsentOf, subject, arms, f) == EvalArms(p, w, k, AbsentOf, subject, arms[1..], f);
  }

  lemma {:induction false} TupleCopied(p: Policy, w: World, k: nat, j: nat, v: Value, ty: Ty, at: nat, next: nat, f: Frame)
    requires ty.Tuple? && Of(w, j, v, ty) && at in f.bindings && f.bindings[at] == v
    ensures Eval(p, w, k, Copy(ty, at, next), f) == Answered(v, k)
    decreases ty, 0
  {
    var nodes := Copy(ty, at, next).nodes;
    TupleAnswers(p, w, k, nodes, v.members, ty, f);
    hide Eval;
    forall i | 0 <= i < |nodes| ensures Eval(p, w, k, nodes[i], f) == Answered(v.members[i], k) {
      CopyIsTheValue(p, w, k, j, v.members[i], ty.members[i], next, next + 1, Bind(f, map[next := v.members[i]]));
      MemberAnswers(p, w, k, v, ty, at, next, i, Copy(ty.members[i], next, next + 1), f);
    }
    EachAnswers(p, w, k, nodes, v.members, f);
  }

  lemma TupleAnswers(p: Policy, w: World, k: nat, nodes: seq<Node>, members: seq<Value>, ty: Ty, f: Frame)
    ensures EvalAll(p, w, k, nodes, f) == AllAnswered(members, k) ==>
      Eval(p, w, k, TupleNode(nodes, ty), f) == Answered(Members(members), k)
  {
  }

  lemma MemberAnswers(p: Policy, w: World, k: nat, v: Value, ty: Ty, at: nat, next: nat, i: nat, inner: Node, f: Frame)
    requires v.Members? && i < |v.members| && at in f.bindings && f.bindings[at] == v
    requires Eval(p, w, k, inner, Bind(f, map[next := v.members[i]])) == Answered(v.members[i], k)
    ensures Eval(p, w, k, ByMember(ty, at, next, i, inner), f) == Answered(v.members[i], k)
  {
    MemberRead(p, w, k, ByMember(ty, at, next, i, inner).value, v, f);
    LetIs(p, w, k, ByMember(ty, at, next, i, inner), v.members[i], f);
  }

  lemma MemberRead(p: Policy, w: World, k: nat, node: Node, v: Value, f: Frame)
    requires node.Member? && node.tuple.Read? && node.tuple.binding in f.bindings && f.bindings[node.tuple.binding] == v
    requires v.Members? && node.at < |v.members|
    ensures Eval(p, w, k, node, f) == Answered(v.members[node.at], k)
  {
    assert Eval(p, w, k, node.tuple, f) == Answered(v, k);
  }

  lemma LetIs(p: Policy, w: World, k: nat, node: Node, v: Value, f: Frame)
    requires node.Let? && Eval(p, w, k, node.value, f) == Answered(v, k)
    ensures Eval(p, w, k, node, f) == Eval(p, w, k, node.body, Bind(f, map[node.binding := v]))
  {
  }

  lemma {:induction false} EachAnswers(p: Policy, w: World, k: nat, nodes: seq<Node>, values: seq<Value>, f: Frame)
    requires |nodes| == |values| && forall i :: 0 <= i < |nodes| ==> Eval(p, w, k, nodes[i], f) == Answered(values[i], k)
    ensures EvalAll(p, w, k, nodes, f) == AllAnswered(values, k)
    decreases |nodes|
  {
    if nodes != [] {
      EachAnswers(p, w, k, nodes[1..], values[1..], f);
      assert values == [values[0]] + values[1..];
    }
  }

  lemma {:induction false} ListCopied(p: Policy, w: World, k: nat, j: nat, v: Value, ty: Ty, at: nat, next: nat, f: Frame)
    requires ty.List? && Of(w, j, v, ty) && at in f.bindings && f.bindings[at] == v
    ensures Eval(p, w, k, Copy(ty, at, next), f) == Answered(v, k)
    decreases ty, 0
  {
    var inner := Copy(ty.element, next + 1, next + 2);
    ElementsCopied(p, w, k, j, ty, next, f, [], v.elements);
    if ty.element.Nothing? { NoneOfNothing(w, j, v, ty); }
    assert [] + v.elements == v.elements;
    WalkAnswers(p, w, k, v, ty, at, next, inner, f);
  }

  lemma WalkAnswers(p: Policy, w: World, k: nat, v: Value, ty: Ty, at: nat, next: nat, inner: Node, f: Frame)
    requires ty.List? && v.Elements? && at in f.bindings && f.bindings[at] == v && (inner.ty.Nothing? ==> v.elements == [])
    requires Stepped(p, w, k, BuildsList, Walks.Adding(next, inner, ty), f, next, next + 1, GrowingOf([]), v.elements) == Answered(v, k)
    ensures Eval(p, w, k, ByWalk(ty, at, next, inner), f) == Answered(v, k)
  {
    var node := ByWalk(ty, at, next, inner);
    assert Eval(p, w, k, node.walked, f) == Answered(v, k);
    assert Eval(p, w, k, node.from, f) == Answered(ScalarOf(Whole(0)), k);
    WalkFromTheFront(p, w, k, v, node, f);
  }

  lemma WalkFromTheFront(p: Policy, w: World, k: nat, v: Value, node: Node, f: Frame)
    requires node.Walk? && node.builds.BuildsList? && node.around == [] && v.Elements? && (NeverRuns(node.takes) ==> v.elements == [])
    requires Eval(p, w, k, node.walked, f) == Answered(v, k) && Eval(p, w, k, node.from, f) == Answered(ScalarOf(Whole(0)), k)
    requires Stepped(p, w, k, BuildsList, node.body, f, node.grown, node.each, GrowingOf([]), v.elements) == Answered(v, k)
    ensures Eval(p, w, k, node, f) == Answered(v, k)
  {
    assert Rest(v.elements, 0) == v.elements;
    assert EvalAround(p, w, k, node.around, f) == InFrame(f, k);
  }

  lemma NoneOfNothing(w: World, j: nat, v: Value, ty: Ty)
    requires ty.List? && ty.element.Nothing? && Of(w, j, v, ty)
    ensures v == Elements([])
  {
    assert v.elements != [] ==> Of(w, j, v.elements[0], ty.element);
  }

  lemma {:induction false} ElementsCopied(p: Policy, w: World, k: nat, j: nat, ty: Ty, next: nat, f: Frame, before: seq<Value>,
                                          elements: seq<Value>)
    requires ty.List? && EachOf(w, j, elements, ty.element)
    ensures Stepped(p, w, k, BuildsList, Walks.Adding(next, Copy(ty.element, next + 1, next + 2), ty), f, next, next + 1,
                    GrowingOf(before), elements) == Answered(Elements(before + elements), k)
    decreases ty, 0, |elements|
  {
    hide Copy, Eval, Stepped;
    if elements == [] {
      NoneLeft(p, w, k, Walks.Adding(next, Copy(ty.element, next + 1, next + 2), ty), f, next, next + 1, before);
      assert before + [] == before;
    } else {
      var g := Walks.RoundFrame(f, next, next + 1, GrowingOf(before), elements[0]);
      CopyIsTheValue(p, w, k, j, elements[0], ty.element, next + 1, next + 2, g);
      OneElement(p, w, k, Copy(ty.element, next + 1, next + 2), ty, f, next, before, elements);
      ElementsCopied(p, w, k, j, ty, next, f, before + [elements[0]], elements[1..]);
      assert before + elements == before + [elements[0]] + elements[1..];
    }
  }

  lemma NoneLeft(p: Policy, w: World, k: nat, body: Node, f: Frame, grown: nat, each: nat, before: seq<Value>)
    ensures Stepped(p, w, k, BuildsList, body, f, grown, each, GrowingOf(before), []) == Answered(Elements(before), k)
  {
  }

  lemma OneElement(p: Policy, w: World, k: nat, item: Node, ty: Ty, f: Frame, next: nat, before: seq<Value>, elements: seq<Value>)
    requires ty.List? && elements != []
    requires Eval(p, w, k, item, Walks.RoundFrame(f, next, next + 1, GrowingOf(before), elements[0])) == Answered(elements[0], k)
    ensures var body := Walks.Adding(next, item, ty);
      Stepped(p, w, k, BuildsList, body, f, next, next + 1, GrowingOf(before), elements)
        == Stepped(p, w, k, BuildsList, body, f, next, next + 1, GrowingOf(before + [elements[0]]), elements[1..])
  {
    Walks.AddingRuns(p, w, k, item, ty, f, next, next + 1, before, elements[0]);
    Walks.OneRound(p, w, k, BuildsList, Walks.Adding(next, item, ty), f, next, next + 1, GrowingOf(before), elements,
                   GrowingOf(before + [elements[0]]), k);
  }
}
