/** What the forms of a body are to one another: what is put together and taken apart again is what was put
    in, an attempt is a `let` of the record where its clauses hold, and a function applied is its body under
    its arguments. Each is said of any nodes, both of whether they may be written and of what they come to. */
module Laws {
  import opened Options
  import opened Transport
  import opened Declarations
  import opened Machine
  import opened Coherence

  /** A name let for a value and read. */
  lemma LetAndRead(p: Policy, w: World, k: nat, required: seq<string>, scope: Scope, node: Node, number: nat, f: Frame)
    requires number !in scope
    ensures var let := Let(number, node.ty, node, Read(number, node.ty), node.ty);
      && (Accepts(w, required, scope, let) <==> Accepts(w, required, scope, node))
      && Eval(p, w, k, let, f) == Eval(p, w, k, node, f)
  {
    assert Accepts(w, required, scope[number := node.ty], Read(number, node.ty));
  }

  /** A truth told: the branch it says and no other. */
  lemma IfOfTruth(p: Policy, w: World, k: nat, required: seq<string>, scope: Scope, b: bool, node: Node, f: Frame)
    requires node.If? && node.cond == Literal(Truth(b), TRUTH)
    ensures Accepts(w, required, scope, node) <==>
      && Accepts(w, required, scope, node.yes) && node.yes.ty == node.ty
      && Accepts(w, required, scope, node.no) && node.no.ty == node.ty
    ensures Eval(p, w, k, node, f) == Eval(p, w, k, if b then node.yes else node.no, f)
  {
    assert Eval(p, w, k, node.cond, f) == Answered(ScalarOf(Truth(b)), k);
  }

  /** A member of a tuple written out: all of it is worked out, and the member at its place is the answer. */
  lemma MemberOfTuple(p: Policy, w: World, k: nat, required: seq<string>, scope: Scope, nodes: seq<Node>, members: seq<Ty>,
                      at: nat, f: Frame)
    requires at < |members| && |nodes| == |members|
    ensures var node := Member(TupleNode(nodes, Tuple(members)), at, members[at]);
      && (Accepts(w, required, scope, node) <==> forall i :: 0 <= i < |nodes| ==> Accepts(w, required, scope, nodes[i]) && nodes[i].ty == members[i])
      && Eval(p, w, k, node, f) == match EvalAll(p, w, k, nodes, f)
                                   case AllAnswered(values, left) => Answered(values[at], left)
                                   case Cut(outcome) => outcome
  {
    var tuple := TupleNode(nodes, Tuple(members));
    assert Accepts(w, required, scope, tuple) <==> AcceptsAll(w, required, scope, nodes) && TypedAs(nodes, members);
  }

  /** Something present told apart: the arm for something held is the value let under its name. */
  lemma MatchOfPresent(p: Policy, w: World, k: nat, node: Node, held: Arm, absent: Arm, ty: Ty, f: Frame)
    requires !HasNoValue(node.ty) && held.selects == [Held] && held.binding.Payload?
    ensures Eval(p, w, k, Match(PresentNode(node, Optional(node.ty)), [held, absent], ty), f)
         == Eval(p, w, k, Let(held.binding.number, node.ty, node, held.body, ty), f)
  {
    var o := Eval(p, w, k, node, f);
    if o.Answered? {
      OneTest(PresentOf(o.value), Held);
      FirstOf(p, w, o.left, PresentOf(o.value), Optional(node.ty), [held, absent], f);
    }
    PresentMatched(p, w, k, node, [held, absent], ty, f);
  }

  lemma PresentMatched(p: Policy, w: World, k: nat, node: Node, arms: seq<Arm>, ty: Ty, f: Frame)
    ensures var o := Eval(p, w, k, node, f);
      Eval(p, w, k, Match(PresentNode(node, Optional(node.ty)), arms, ty), f)
        == if o.Answered? then EvalArms(p, w, o.left, PresentOf(o.value), Optional(node.ty), arms, f) else o
  {
    hide Eval, EvalArms;
    var match_ := Match(PresentNode(node, Optional(node.ty)), arms, ty);
    PresentIs(p, w, k, match_.subject, f);
    MatchIs(p, w, k, match_, f);
  }

  lemma PresentIs(p: Policy, w: World, k: nat, node: Node, f: Frame)
    requires node.PresentNode?
    ensures var o := Eval(p, w, k, node.value, f);
      Eval(p, w, k, node, f) == if o.Answered? then Answered(PresentOf(o.value), o.left) else o
  {
  }

  lemma MatchIs(p: Policy, w: World, k: nat, node: Node, f: Frame)
    requires node.Match?
    ensures var o := Eval(p, w, k, node.subject, f);
      Eval(p, w, k, node, f) == if o.Answered? then EvalArms(p, w, o.left, o.value, node.subject.ty, node.arms, f) else o
  {
    hide EvalArms;
  }

  /** And it may be written exactly where that `let` may and the other arm. */
  lemma MatchOfPresentStands(w: World, required: seq<string>, scope: Scope, node: Node, held: Arm, absent: Arm, ty: Ty)
    requires held.selects == [Held] && held.binding.Payload? && held.binding.readAs == node.ty
    requires absent.selects == [Absence] && absent.binding.NoName?
    ensures Accepts(w, required, scope, Match(PresentNode(node, Optional(node.ty)), [held, absent], ty)) <==>
      && Accepts(w, required, scope, Let(held.binding.number, node.ty, node, held.body, ty))
      && Accepts(w, required, scope, absent.body) && absent.body.ty == ty
  {
    PresentAccepted(w, required, scope, node);
    TwoArms(w, required, scope, PresentNode(node, Optional(node.ty)), held, absent, ty);
    HeldArm(w, required, scope, node.ty, held, ty);
    AbsentArm(w, required, scope, node.ty, absent, ty);
    LetAccepted(w, required, scope, held.binding.number, node, held.body, ty);
    hide Accepts;
  }

  lemma LetAccepted(w: World, required: seq<string>, scope: Scope, number: nat, value: Node, body: Node, ty: Ty)
    ensures Accepts(w, required, scope, Let(number, value.ty, value, body, ty)) <==>
      && Accepts(w, required, scope, value) && number !in scope
      && Accepts(w, required, scope[number := value.ty], body) && body.ty == ty
  {
  }

  /** Nothing present told apart: the arm for nothing, under the names there were. */
  lemma MatchOfAbsent(p: Policy, w: World, k: nat, held: Arm, absent: Arm, of: Ty, ty: Ty, f: Frame)
    requires held.selects == [Held] && absent.selects == [Absence] && absent.binding.NoName?
    ensures Eval(p, w, k, Match(AbsentNode(Optional(of)), [held, absent], ty), f) == Eval(p, w, k, absent.body, f)
  {
    OneTest(AbsentOf, Held);
    OneTest(AbsentOf, Absence);
    FirstStands(p, w, k, AbsentOf, Optional(of), [held, absent], f, 1);
    assert Bind(f, map[]) == f;
    AbsentMatched(p, w, k, of, [held, absent], ty, f);
  }

  lemma AbsentMatched(p: Policy, w: World, k: nat, of: Ty, arms: seq<Arm>, ty: Ty, f: Frame)
    ensures Eval(p, w, k, Match(AbsentNode(Optional(of)), arms, ty), f) == EvalArms(p, w, k, AbsentOf, Optional(of), arms, f)
  {
    assert Eval(p, w, k, AbsentNode(Optional(of)), f) == Answered(AbsentOf, k);
  }

  lemma OneTest(v: Value, select: Selects)
    ensures Tests(v, [select]) == Test(v, select)
  {
    assert [select][1..] == [];
  }

  lemma PresentAccepted(w: World, required: seq<string>, scope: Scope, node: Node)
    ensures Accepts(w, required, scope, PresentNode(node, Optional(node.ty))) <==> Accepts(w, required, scope, node)
  {
  }

  lemma TwoArms(w: World, required: seq<string>, scope: Scope, subject: Node, first: Arm, second: Arm, ty: Ty)
    ensures Accepts(w, required, scope, Match(subject, [first, second], ty)) <==>
      && Accepts(w, required, scope, subject)
      && AcceptsArm(w, required, scope, subject.ty, first, ty) && AcceptsArm(w, required, scope, subject.ty, second, ty)
  {
    var node := Match(subject, [first, second], ty);
    assert node.arms[0] == first && node.arms[1] == second;
  }

  lemma HeldArm(w: World, required: seq<string>, scope: Scope, held: Ty, arm: Arm, ty: Ty)
    requires arm.selects == [Held] && arm.binding.Payload? && arm.binding.readAs == held
    ensures AcceptsArm(w, required, scope, Optional(held), arm, ty) <==>
      arm.binding.number !in scope && arm.body.ty == ty && Accepts(w, required, scope[arm.binding.number := held], arm.body)
  {
    assert TestsStand(w.declared, Optional(held), arm.selects);
  }

  lemma AbsentArm(w: World, required: seq<string>, scope: Scope, held: Ty, arm: Arm, ty: Ty)
    requires arm.selects == [Absence] && arm.binding.NoName?
    ensures AcceptsArm(w, required, scope, Optional(held), arm, ty) <==> arm.body.ty == ty && Accepts(w, required, scope, arm.body)
  {
    assert TestsStand(w.declared, Optional(held), arm.selects);
  }

  /** An arm is passed by where none of its tests stands, or where it is never entered. */
  predicate PassedBy(v: Value, subject: Ty, arm: Arm) {
    NeverEntered(arm, subject) || Tests(v, arm.selects) == Some(false)
  }

  /** The first arm not passed by is the one taken, under what it binds, whatever comes after it; and none
      is, exactly where every arm is passed by. */
  lemma {:induction false} FirstStands(p: Policy, w: World, k: nat, v: Value, subject: Ty, arms: seq<Arm>, f: Frame, at: nat)
    requires at <= |arms| && forall i :: 0 <= i < at ==> PassedBy(v, subject, arms[i])
    ensures at == |arms| ==> EvalArms(p, w, k, v, subject, arms, f) == NoArm
    ensures at < |arms| && !PassedBy(v, subject, arms[at]) && Tests(v, arms[at].selects).Some? && Named(v, arms[at].binding).Some? ==>
      EvalArms(p, w, k, v, subject, arms, f) == Eval(p, w, k, arms[at].body, Bind(f, Named(v, arms[at].binding).value))
    decreases at
  {
    hide Eval, EvalArms, Tests;
    if at == 0 {
      FirstOf(p, w, k, v, subject, arms, f);
    } else {
      OnePassed(p, w, k, v, subject, arms, f);
      FirstStands(p, w, k, v, subject, arms[1..], f, at - 1);
    }
  }

  lemma FirstOf(p: Policy, w: World, k: nat, v: Value, subject: Ty, arms: seq<Arm>, f: Frame)
    ensures arms == [] ==> EvalArms(p, w, k, v, subject, arms, f) == NoArm
    ensures arms != [] && !PassedBy(v, subject, arms[0]) && Tests(v, arms[0].selects).Some? && Named(v, arms[0].binding).Some? ==>
      EvalArms(p, w, k, v, subject, arms, f) == Eval(p, w, k, arms[0].body, Bind(f, Named(v, arms[0].binding).value))
  {
  }

  lemma OnePassed(p: Policy, w: World, k: nat, v: Value, subject: Ty, arms: seq<Arm>, f: Frame)
    requires arms != [] && PassedBy(v, subject, arms[0])
    ensures EvalArms(p, w, k, v, subject, arms, f) == EvalArms(p, w, k, v, subject, arms[1..], f)
  {
  }

  // ----- functions -----

  /** What a function is handed for a parameter is under its number, whichever the place. */
  lemma {:induction false} HandingAt(parameters: seq<nat>, arguments: seq<Value>, i: nat)
    requires |parameters| == |arguments| && i < |parameters|
    requires forall a, b :: 0 <= a < b < |parameters| ==> parameters[a] != parameters[b]
    ensures parameters[i] in Handing(parameters, arguments) && Handing(parameters, arguments)[parameters[i]] == arguments[i]
    ensures forall x :: x in Handing(parameters, arguments) ==> x in parameters
    decreases |parameters|
  {
    var last := |parameters| - 1;
    if i < last {
      HandingAt(parameters[..last], arguments[..last], i);
    } else if last > 0 {
      HandingAt(parameters[..last], arguments[..last], 0);
    }
  }

  /** A block applied where it is written: its body under its arguments, worked out first and in order, for
      one step more. */
  lemma ApplyOfBlock(w: World, k: nat, node: Node, f: Frame)
    requires node.Apply? && node.applied.Block? && |node.applied.parameters| == |node.arguments|
    requires node.applied.ty.Fn? && !NeverRuns(node.applied.ty.takes)
    ensures var block := node.applied;
      Eval(Lexical, w, k, node, f) == match EvalAll(Lexical, w, k, node.arguments, f)
        case Cut(outcome) => outcome
        case AllAnswered(values, left) =>
          if left == 0 then Exhausted else Eval(Lexical, w, left - 1, block.body, Bind(f, Handing(block.parameters, values)))
  {
    var block := node.applied;
    assert Eval(Lexical, w, k, block, f) == Answered(Closure(block.parameters, block.body, f), k);
    var o := EvalAll(Lexical, w, k, node.arguments, f);
    if o.AllAnswered? && o.left > 0 {
      ClosureApplied(w, o.left - 1, block.parameters, block.body, f, o.values);
    }
  }

  /** And it is written exactly where the arguments are what it takes and its body stands under them. */
  lemma ApplyOfBlockStands(w: World, required: seq<string>, scope: Scope, site: nat, parameters: seq<nat>, body: Node,
                           takes: seq<Ty>, arguments: seq<Node>)
    requires |parameters| == |takes|
    ensures Accepts(w, required, scope, Apply(Block(site, parameters, body, Fn(takes, body.ty)), arguments, body.ty)) <==>
      && AcceptsAll(w, required, scope, arguments) && TypedAs(arguments, takes)
      && Entering(scope, parameters, takes).Some?
      && Accepts(w, required, Entering(scope, parameters, takes).value, body)
  {
    BlockAccepted(w, required, scope, site, parameters, body, takes);
  }

  lemma BlockAccepted(w: World, required: seq<string>, scope: Scope, site: nat, parameters: seq<nat>, body: Node, takes: seq<Ty>)
    requires |parameters| == |takes|
    ensures Accepts(w, required, scope, Block(site, parameters, body, Fn(takes, body.ty))) <==>
      Entering(scope, parameters, takes).Some? && Accepts(w, required, Entering(scope, parameters, takes).value, body)
  {
  }

  lemma ClosureApplied(w: World, k: nat, parameters: seq<nat>, body: Node, f: Frame, values: seq<Value>)
    requires |parameters| == |values|
    ensures Applied(Lexical, w, k, Closure(parameters, body, f), values) == Eval(Lexical, w, k, body, Bind(f, Handing(parameters, values)))
  {
  }

  // ----- records -----

  /** A record is made exactly where its fields are and its clauses hold, of those fields in order. */
  lemma ConstructAnswers(p: Policy, w: World, k: nat, declared: string, values: seq<Node>, ty: Ty, f: Frame)
    requires declared in w.declared
    ensures var o := Eval(p, w, k, Construct(declared, values, ty), f);
      match EvalAll(p, w, k, values, f)
      case Cut(outcome) => o == outcome
      case AllAnswered(fields, left) =>
        if ClausesOf(w.declared[declared]) != [] && !w.verdict(declared, fields).Holds? then o == Ended
        else o == Answered(Record(declared, fields), left)
  {
  }

  /** A field of a record just made is what was written for it. */
  lemma FieldOfConstruct(p: Policy, w: World, k: nat, required: seq<string>, scope: Scope, declared: string, values: seq<Node>,
                         at: nat, f: Frame)
    requires declared in w.declared && IsBuilt(w.declared[declared]) && |values| == |FieldsOf(w.declared[declared])|
    requires at < |values| && forall i :: 0 <= i < at ==> FieldsOf(w.declared[declared])[i].name != FieldsOf(w.declared[declared])[at].name
    ensures var field, record := FieldsOf(w.declared[declared])[at], Construct(declared, values, Ref(Declared(declared)));
      var o := Eval(p, w, k, record, f);
      && (Accepts(w, required, scope, FieldOf(record, field.name, field.ty)) <==> Accepts(w, required, scope, record))
      && (o.Answered? ==>
            (o.value.Record? && at < |o.value.fields|
             && Eval(p, w, k, FieldOf(record, field.name, field.ty), f) == Answered(o.value.fields[at], o.left)))
  {
    var fields, record := FieldsOf(w.declared[declared]), Construct(declared, values, Ref(Declared(declared)));
    PositionIs(fields, at);
    ConstructAnswers(p, w, k, declared, values, record.ty, f);
    assert FieldStands(w.declared, record.ty, fields[at].name, fields[at].ty);
  }

  lemma {:induction false} PositionIs(fields: seq<Field>, at: nat)
    requires at < |fields| && forall i :: 0 <= i < at ==> fields[i].name != fields[at].name
    ensures PositionOf(fields, fields[at].name) == Some(at)
  {
    if at > 0 { PositionIs(fields[1..], at - 1); }
  }

  /** An attempt where the clauses hold is the record let under its name, made with nothing to stop it; where
      one breaks it is what departs for that clause, under the names there were; and where the run is ended
      it is ended. */
  lemma AttemptIs(p: Policy, w: World, k: nat, node: Node, f: Frame)
    requires node.Attempt? && node.declared in w.declared && DeparturesTaken(ClausesOf(w.declared[node.declared]), node.departures)
    ensures var o := Eval(p, w, k, node, f);
      match EvalAll(p, w, k, node.values, f)
      case Cut(outcome) => o == outcome
      case AllAnswered(fields, left) =>
        match w.verdict(node.declared, fields)
        case Holds =>
          o == Eval(p, w, k, Let(node.binding, node.binds, Construct(node.declared, node.values, node.binds), node.built, node.ty), f)
        case EndsRun => o == Ended
        case Breaks(clause) => clause < |ClausesOf(w.declared[node.declared])| ==>
          exists i :: 0 <= i < |node.departures|
            && node.departures[i].taking in {AnyClause, OneClause(ClausesOf(w.declared[node.declared])[clause])}
            && o == Eval(p, w, left, node.departures[i].body, f)
  {
    ConstructAnswers(p, w, k, node.declared, node.values, node.binds, f);
    var clauses, o := ClausesOf(w.declared[node.declared]), EvalAll(p, w, k, node.values, f);
    if o.AllAnswered? && w.verdict(node.declared, o.values).Breaks? && w.verdict(node.declared, o.values).clause < |clauses| {
      var at := DepartureFor(clauses, node.departures, w.verdict(node.declared, o.values).clause).value;
      assert Eval(p, w, k, node, f) == Eval(p, w, o.left, node.departures[at].body, f);
      assert node.departures[at].taking in {AnyClause, OneClause(clauses[w.verdict(node.declared, o.values).clause])};
    }
  }

  /** And an attempt is written exactly where the record let under its name is, the declaration has clauses,
      and the departures are taken and stand. */
  lemma AttemptStands(w: World, required: seq<string>, scope: Scope, node: Node)
    requires node.Attempt? && node.binds == Ref(Declared(node.declared))
    ensures Accepts(w, required, scope, node) <==>
      && node.declared in w.declared
      && Accepts(w, required, scope, Let(node.binding, node.binds, Construct(node.declared, node.values, node.binds), node.built, node.ty))
      && ClausesOf(w.declared[node.declared]) != []
      && DeparturesTaken(ClausesOf(w.declared[node.declared]), node.departures)
      && forall i :: 0 <= i < |node.departures| ==>
           node.departures[i].body.ty == node.ty && Accepts(w, required, scope, node.departures[i].body)
  {
    var record := Construct(node.declared, node.values, node.binds);
    LetAccepted(w, required, scope, node.binding, record, node.built, node.ty);
    assert Accepts(w, required, scope, record) <==>
      && node.declared in w.declared && IsBuilt(w.declared[node.declared])
      && TypedAs(node.values, TypesOf(FieldsOf(w.declared[node.declared]))) && AcceptsAll(w, required, scope, node.values);
  }

  /** Written for the clause, and no other departure is. */
  predicate WrittenOnce(departures: seq<Departure>, clause: ClauseName) {
    exists i :: 0 <= i < |departures| && departures[i].taking == OneClause(clause)
      && forall j :: 0 <= j < |departures| && departures[j].taking == OneClause(clause) ==> j == i
  }

  /** Departures are taken where a single one is for any clause, or else exactly where each is for a clause
      there is and each clause has one and only one. */
  lemma DeparturesExactly(clauses: seq<ClauseName>, departures: seq<Departure>)
    ensures DeparturesTaken(clauses, departures) <==>
      || ForAnyClause(departures)
      || (&& (forall i :: 0 <= i < |departures| ==> departures[i].taking.OneClause? && departures[i].taking.clause in clauses)
          && forall c :: c in clauses ==> WrittenOnce(departures, c))
  {
    if DeparturesTaken(clauses, departures) && !ForAnyClause(departures) {
      forall c | c in clauses ensures WrittenOnce(departures, c) {
        var place :| 0 <= place < |clauses| && clauses[place] == c;
        assert DepartureNaming(departures, clauses[place]).Some?;
      }
    }
    if forall c :: c in clauses ==> WrittenOnce(departures, c) {
      forall place | 0 <= place < |clauses| ensures DepartureNaming(departures, clauses[place]).Some? {
        assert WrittenOnce(departures, clauses[place]);
      }
      if forall i :: 0 <= i < |departures| ==> departures[i].taking.OneClause? && departures[i].taking.clause in clauses {
        forall i, j | 0 <= i < j < |departures| ensures departures[i].taking != departures[j].taking {
          assert WrittenOnce(departures, departures[i].taking.clause);
        }
      }
    }
  }

  // ----- walks -----

  /** What is bound around a step is bound as a `let` binds it: a walk of something that stands anywhere is
      written under one more binding exactly where it is written in the `let` of that binding. */
  lemma AroundStands(w: World, required: seq<string>, scope: Scope, around: Around, walk: Node, outer: Node)
    requires walk.Walk? && walk.walked.ListNode? && walk.walked.nodes == [] && walk.from.Literal?
    requires outer == Walk(walk.builds, [around] + walk.around, walk.grown, walk.each, walk.body, walk.takes, walk.answers,
                           walk.walked, walk.from, walk.ty)
    ensures Accepts(w, required, scope, outer)
       <==> Accepts(w, required, scope, Let(around.binding, around.value.ty, around.value, walk, walk.ty)) && around.value.ty == around.binds
  {
    hide Accepts, Entering, StepAccepted, AroundScope;
    var inner := scope[around.binding := around.value.ty];
    LetAccepted(w, required, scope, around.binding, around.value, walk, walk.ty);
    StandAnywhere(w, required, scope, inner, walk.walked, walk.from);
    WalkAccepted(w, required, inner, walk);
    WalkAccepted(w, required, scope, outer);
    AroundFirst(w, required, scope, around, walk.around, outer.around);
    SameStep(w, required, walk, outer);
    hide WalkHeld;
  }

  lemma SameStep(w: World, required: seq<string>, walk: Node, outer: Node)
    requires walk.Walk? && outer.Walk? && outer == Walk(walk.builds, outer.around, walk.grown, walk.each, walk.body, walk.takes, walk.answers,
                                         walk.walked, walk.from, walk.ty)
    ensures forall inner: Option<Scope>, operands: bool ::
      WalkHeld(w, required, outer, operands, inner) <==> WalkHeld(w, required, walk, operands, inner)
  {
    hide Accepts, Entering;
  }

  lemma AroundFirst(w: World, required: seq<string>, scope: Scope, first: Around, rest: seq<Around>, around: seq<Around>)
    requires around == [first] + rest
    ensures AroundScope(w, required, scope, around)
         == if Accepts(w, required, scope, first.value) && first.value.ty == first.binds && first.binding !in scope
            then AroundScope(w, required, scope[first.binding := first.value.ty], rest) else None
  {
    hide Accepts;
    assert around[0] == first && around[1..] == rest;
  }

  lemma StandAnywhere(w: World, required: seq<string>, a: Scope, b: Scope, list: Node, literal: Node)
    requires list.ListNode? && list.nodes == [] && literal.Literal?
    ensures Accepts(w, required, a, list) <==> Accepts(w, required, b, list)
    ensures Accepts(w, required, a, literal) <==> Accepts(w, required, b, literal)
  {
  }

  /** A walk's types and its step, its operands standing and what its step is written in being given. */
  predicate WalkHeld(w: World, required: seq<string>, node: Node, operands: bool, inner: Option<Scope>)
    requires node.Walk?
  {
    && |node.takes| == 2 && BuildsA(node.builds, node.takes[0]) && node.ty == node.answers && BuildsA(node.builds, node.ty)
    && operands && node.walked.ty == List(node.takes[1]) && node.from.ty == Prim(IntPrim)
    && inner.Some? && StepAccepted(w, required, inner.value, node)
  }

  /** The step of a walk stands under its two parameters. */
  predicate StepAccepted(w: World, required: seq<string>, inner: Scope, node: Node)
    requires node.Walk? && |node.takes| == 2
  {
    var stepping := Entering(inner, [node.grown, node.each], node.takes);
    stepping.Some? && Accepts(w, required, stepping.value, node.body) && node.body.ty == node.answers
  }

  lemma WalkAccepted(w: World, required: seq<string>, scope: Scope, node: Node)
    requires node.Walk?
    ensures Accepts(w, required, scope, node) <==>
      WalkHeld(w, required, node, Accepts(w, required, scope, node.walked) && Accepts(w, required, scope, node.from),
               AroundScope(w, required, scope, node.around))
  {
  }

  // ----- order -----

  /** Nodes in a row are worked out from the left, each with what the ones before it left, and the first that
      comes to no value is what the row comes to, whatever comes after it. */
  lemma {:induction false} RowThenRow(p: Policy, w: World, k: nat, first: seq<Node>, later: seq<Node>, f: Frame)
    ensures EvalAll(p, w, k, first + later, f) ==
      match EvalAll(p, w, k, first, f)
      case Cut(outcome) => Cut(outcome)
      case AllAnswered(values, left) =>
        match EvalAll(p, w, left, later, f)
        case Cut(outcome) => Cut(outcome)
        case AllAnswered(others, left) => AllAnswered(values + others, left)
    decreases |first|
  {
    hide Eval;
    var nodes := first + later;
    if first == [] {
      assert nodes == later;
      var o := EvalAll(p, w, k, later, f);
      if o.AllAnswered? { assert [] + o.values == o.values; }
    } else {
      assert nodes[0] == first[0] && nodes[1..] == first[1..] + later;
      var o := Eval(p, w, k, first[0], f);
      if o.Answered? {
        RowThenRow(p, w, o.left, first[1..], later, f);
        RowFirst(p, w, k, first, f);
        RowFirst(p, w, k, nodes, f);
      }
    }
  }

  lemma RowFirst(p: Policy, w: World, k: nat, nodes: seq<Node>, f: Frame)
    requires nodes != [] && Eval(p, w, k, nodes[0], f).Answered?
    ensures var o := Eval(p, w, k, nodes[0], f);
      EvalAll(p, w, k, nodes, f) ==
        match EvalAll(p, w, o.left, nodes[1..], f)
        case Cut(outcome) => Cut(outcome)
        case AllAnswered(values, left) => AllAnswered([o.value] + values, left)
  {
    hide Eval;
  }

  /** A group of tests stands where one of them does, every one of them being there to be made. */
  lemma {:induction false} TestsAre(v: Value, selects: seq<Selects>)
    ensures Tests(v, selects).Some? <==> forall i :: 0 <= i < |selects| ==> Test(v, selects[i]).Some?
    ensures Tests(v, selects) == Some(true) ==> exists i :: 0 <= i < |selects| && Test(v, selects[i]) == Some(true)
    ensures Tests(v, selects) == Some(false) ==> forall i :: 0 <= i < |selects| ==> Test(v, selects[i]) == Some(false)
    decreases |selects|
  {
    if selects != [] {
      TestsAre(v, selects[1..]);
      assert forall i :: 1 <= i < |selects| ==> selects[i] == selects[1..][i - 1];
      assert forall i :: 0 <= i < |selects| - 1 ==> selects[1..][i] == selects[i + 1];
    }
  }

  /** A helper called reads under each number the argument handed at that place, and nothing of the frame it
      is called from. */
  lemma HelperReads(p: Policy, w: World, k: nat, reached: string, arguments: seq<Value>, at: nat)
    requires reached in w.helpers && w.helpers[reached].body.Read? && w.helpers[reached].body.binding == at
    ensures RunHelper(p, w, k, reached, arguments) == if at < |arguments| then Answered(arguments[at], k) else Stuck(Misshapen)
  {
  }
}
