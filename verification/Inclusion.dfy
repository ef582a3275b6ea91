/** Fitting said by values alone: where the types in question have values, one type fits another
    exactly where each value of the one is a value of the other. What is refused is told apart by a
    value, and where a function's parameters are what differs, by a function taking the value apart. */
module Inclusion {
  import opened Options
  import opened Transport
  import opened Declarations
  import opened Machine
  import opened Typing

  // ----- types that have values -----

  /** Of the type for however many steps. */
  ghost predicate Lasting(w: World, v: Value, ty: Ty) {
    forall k: nat :: Of(w, k, v, ty)
  }

  ghost predicate LastingCase(w: World, v: Value, c: Case) {
    forall k: nat :: IsCase(w, k, v, [c])
  }

  /** The case is known and some value is it. */
  ghost predicate HasCase(w: World, c: Case) {
    exists v :: LastingCase(w, v, c)
  }

  predicate OfCasesOnly(ty: Ty) {
    ty.Prim? || ty.Ref? || ty.Union?
  }

  /** Built of cases, optionals, lists and functions: what a body can take apart with a `Match`, a
      `Walk` or an `Apply` and find fault with. */
  predicate TakenApart(ty: Ty) {
    match ty
    case Optional(held) => TakenApart(held)
    case List(element) => TakenApart(element)
    case Fn(takes, answers) => (forall i :: 0 <= i < |takes| ==> TakenApart(takes[i])) && TakenApart(answers)
    case Set(_) => false
    case Map(_, _) => false
    case Tuple(_) => false
    case _ => true
  }

  /** Every name in it known, every case having a value, and so every type held in it. */
  ghost predicate Full(w: World, ty: Ty) {
    match ty
    case Prim(_) => true
    case Ref(_) => CasesFull(w, ty)
    case Union(_) => CasesFull(w, ty)
    case Optional(held) => HasNoValue(held) || Full(w, held)
    case List(element) => HasNoValue(element) || Full(w, element)
    case Set(element) => HasNoValue(element) || Full(w, element)
    case Map(key, value) => (HasNoValue(key) && HasNoValue(value)) || (Full(w, key) && Full(w, value))
    case Tuple(members) => forall i :: 0 <= i < |members| ==> Full(w, members[i])
    case Fn(takes, answers) =>
      && (forall i :: 0 <= i < |takes| ==> Full(w, takes[i]) && TakenApart(takes[i]))
      && (HasNoValue(answers) || Full(w, answers))
    case _ => false
  }

  ghost predicate CasesFull(w: World, ty: Ty) {
    var cases := CasesOf(w.declared, ty);
    cases.Some? && cases.value != [] && forall c :: c in cases.value ==> HasCase(w, c)
  }

  /** Every name in it known; of what its functions take, as much as `Full` says. */
  ghost predicate AllNamed(w: World, ty: Ty) {
    match ty
    case Ref(_) => CasesOf(w.declared, ty).Some?
    case Union(_) => CasesOf(w.declared, ty).Some?
    case Optional(held) => AllNamed(w, held)
    case List(element) => AllNamed(w, element)
    case Set(element) => AllNamed(w, element)
    case Map(key, value) => AllNamed(w, key) && AllNamed(w, value)
    case Tuple(members) => forall i :: 0 <= i < |members| ==> AllNamed(w, members[i])
    case Fn(takes, answers) =>
      && (forall i :: 0 <= i < |takes| ==> Full(w, takes[i]) && TakenApart(takes[i]))
      && AllNamed(w, answers)
    case _ => true
  }

  lemma {:induction false} FullIsNamed(w: World, ty: Ty)
    requires HasNoValue(ty) || Full(w, ty)
    ensures AllNamed(w, ty)
    decreases ty
  {
    match ty
    case Optional(held) => FullIsNamed(w, held);
    case List(element) => FullIsNamed(w, element);
    case Set(element) => FullIsNamed(w, element);
    case Map(key, value) =>
      FullIsNamed(w, key);
      FullIsNamed(w, value);
    case Tuple(members) =>
      forall i | 0 <= i < |members| ensures AllNamed(w, members[i]) { FullIsNamed(w, members[i]); }
    case Fn(_, answers) => FullIsNamed(w, answers);
    case _ =>
  }

  // ----- a value of each -----

  function ScalarFor(prim: Prim): (r: Scalar)
    ensures PrimOf(r) == prim
  {
    match prim
    case IntPrim => Whole(0)
    case BoolPrim => Truth(false)
    case StringPrim => Text("")
    case OtherThan(other) => Other(other, 0, 0)
  }

  lemma CaseValue(w: World, ty: Ty, c: Case) returns (v: Value)
    requires OfCasesOnly(ty) && Full(w, ty) && c in CasesOf(w.declared, ty).value
    ensures LastingCase(w, v, c) && Lasting(w, v, ty)
  {
    if ty.Prim? {
      v := ScalarOf(ScalarFor(ty.prim));
    } else {
      v :| LastingCase(w, v, c);
    }
    forall k: nat ensures Of(w, k, v, ty) {
      assert IsCase(w, k, v, [c]);
      OfCases(w, k, v, ty);
    }
  }

  /** The parameters a function of so many takes is written with. */
  function Numbered(n: nat): (r: seq<nat>)
    ensures |r| == n && forall i :: 0 <= i < n ==> r[i] == i
  {
    seq(n, i requires 0 <= i < n => i)
  }

  lemma {:induction false} HandingNumbered(parameters: seq<nat>, n: nat, arguments: seq<Value>)
    requires parameters == Numbered(n) && |arguments| == n
    ensures forall x: nat :: x in Handing(parameters, arguments) <==> x < n
    ensures forall i :: 0 <= i < n ==> Handing(parameters, arguments)[i] == arguments[i]
    decreases n
  {
    if n == 0 {
      assert parameters == [];
    } else {
      assert parameters[..n - 1] == Numbered(n - 1);
      HandingNumbered(parameters[..n - 1], n - 1, arguments[..n - 1]);
      assert forall i :: 0 <= i < n - 1 ==> arguments[..n - 1][i] == arguments[i];
      assert Handing(parameters, arguments) == Handing(parameters[..n - 1], arguments[..n - 1])[n - 1 := arguments[n - 1]];
    }
  }

  /** A function of so many parameters whose body is the node, over some captured values. */
  function FunctionOf(n: nat, body: Node, captured: map<nat, Value>): Value {
    Closure(Numbered(n), body, Frame(captured, [], Unhanded))
  }

  /** What its body reads: the arguments by position, and what was captured past them. */
  lemma FunctionReads(w: World, k: nat, n: nat, body: Node, captured: map<nat, Value>, arguments: seq<Value>) returns (f: Frame)
    requires |arguments| == n && forall x :: x in captured ==> x >= n
    ensures Applied(Lexical, w, k, FunctionOf(n, body, captured), arguments) == Eval(Lexical, w, k, body, f)
    ensures forall i :: 0 <= i < n ==> i in f.bindings && f.bindings[i] == arguments[i]
    ensures forall x :: x in captured ==> x in f.bindings && f.bindings[x] == captured[x]
    ensures forall x :: x in f.bindings ==> x < n || x in captured
  {
    HandingNumbered(Numbered(n), n, arguments);
    f := Bind(Frame(captured, [], Unhanded), Handing(Numbered(n), arguments));
  }

  /** A function that never answers is of every function type of its parameters. */
  lemma TrapIsOf(w: World, takes: seq<Ty>, answers: Ty)
    ensures Lasting(w, FunctionOf(|takes|, Unreachable(Never), map[]), Fn(takes, answers))
  {
    var v := FunctionOf(|takes|, Unreachable(Never), map[]);
    forall k: nat ensures Of(w, k, v, Fn(takes, answers)) {
      forall j: nat, arguments: seq<Value> | j < k && AllOf(w, j, arguments, takes)
        ensures Safe(w, Applied(Lexical, w, j, v, arguments), answers)
      {
        var _ := FunctionReads(w, j, |takes|, Unreachable(Never), map[], arguments);
      }
    }
  }

  lemma {:induction false} Inhabited(w: World, ty: Ty) returns (v: Value)
    requires Full(w, ty)
    ensures Lasting(w, v, ty)
    decreases ty, 0
  {
    match ty
    case Optional(_) => v := AbsentOf;
    case List(_) => v := Elements([]);
    case Set(_) => v := SetOf([]);
    case Map(_, _) => v := MapOf([], []);
    case Tuple(members) =>
      var values := InhabitedAll(w, members);
      v := Members(values);
    case Fn(takes, answers) =>
      v := FunctionOf(|takes|, Unreachable(Never), map[]);
      TrapIsOf(w, takes, answers);
    case Prim(_) => v := CaseValue(w, ty, CasesOf(w.declared, ty).value[0]);
    case Ref(_) => v := CaseValue(w, ty, CasesOf(w.declared, ty).value[0]);
    case Union(_) => v := CaseValue(w, ty, CasesOf(w.declared, ty).value[0]);
  }

  lemma {:induction false} InhabitedAll(w: World, tys: seq<Ty>) returns (values: seq<Value>)
    requires forall i :: 0 <= i < |tys| ==> Full(w, tys[i])
    ensures AllLasting(w, values, tys)
    decreases tys, 1
  {
    if tys == [] {
      values := [];
    } else {
      var first := Inhabited(w, tys[0]);
      var rest := InhabitedAll(w, tys[1..]);
      values := [first] + rest;
    }
  }

  // ----- a function telling a value from those of a type -----

  /** No value of the type is one the function cannot be run on. */
  ghost predicate SafeOn(w: World, t: Value, ty: Ty) {
    forall j: nat, v :: Of(w, j, v, ty) ==> !Applied(Lexical, w, j, t, [v]).Stuck?
  }

  /** With steps enough, running the function on the value gets stuck. */
  ghost predicate FaultsAt(w: World, k: nat, t: Value, v: Value) {
    Applied(Lexical, w, k, t, [v]).Stuck?
  }

  ghost predicate Faults(w: World, t: Value, v: Value) {
    exists k: nat :: FaultsAt(w, k, t, v)
  }

  const TRAP := FunctionOf(1, Unreachable(Never), map[])

  lemma TrapIsSafe(w: World, ty: Ty)
    ensures SafeOn(w, TRAP, ty)
  {
    forall j: nat, v | Of(w, j, v, ty) ensures !Applied(Lexical, w, j, TRAP, [v]).Stuck? {
      var _ := FunctionReads(w, j, 1, Unreachable(Never), map[], [v]);
    }
  }

  /** What faults is not of a type all of whose values are safe. */
  lemma FaultingIsNotOf(w: World, t: Value, v: Value, ty: Ty)
    requires SafeOn(w, t, ty) && Faults(w, t, v)
    ensures !Lasting(w, v, ty)
  {
    var k: nat :| FaultsAt(w, k, t, v);
    assert !Of(w, k, v, ty);
  }

  /** A match of one arm with one test. */
  lemma OneArm(w: World, k: nat, v: Value, arm: Arm, select: Selects, f: Frame)
    requires arm.selects == [select]
    ensures EvalArms(Lexical, w, k, v, Never, [arm], f) == (
      match Test(v, select)
      case None => Stuck(Misshapen)
      case Some(false) => NoArm
      case Some(true) =>
        match Named(v, arm.binding)
        case None => Stuck(Misshapen)
        case Some(bindings) => Eval(Lexical, w, k, arm.body, Bind(f, bindings)))
  {
    var arms := [arm];
    assert EvalArms(Lexical, w, k, v, Never, arms[1..], f) == NoArm;
    assert arm.selects[1..] == [];
    assert Tests(v, arm.selects) == Test(v, select);
  }

  /** Gets stuck on the one case given, or on what has no case. */
  function CaseTest(c: Option<Case>): Node {
    Match(Read(0, Never), [Arm([Which(if c.Some? then [c.value] else [])], NoName, Read(1, Never))], Never)
  }

  lemma CaseTested(w: World, ty: Ty, u: Value) returns (t: Value)
    requires CasesOf(w.declared, ty).Some?
    requires CaseOf(u).Some? ==> CaseOf(u).value !in CasesOf(w.declared, ty).value
    ensures SafeOn(w, t, ty) && Faults(w, t, u)
  {
    var body := CaseTest(CaseOf(u));
    t := FunctionOf(1, body, map[]);
    forall j: nat, v | Of(w, j, v, ty) ensures !Applied(Lexical, w, j, t, [v]).Stuck? {
      OfCases(w, j, v, ty);
      CaseTestRuns(w, j, CaseOf(u), v);
    }
    CaseTestRuns(w, 0, CaseOf(u), u);
    assert FaultsAt(w, 0, t, u);
  }

  lemma CaseTestRuns(w: World, k: nat, c: Option<Case>, v: Value)
    ensures CaseOf(v).Some? && CaseOf(v) != c ==>
      Applied(Lexical, w, k, FunctionOf(1, CaseTest(c), map[]), [v]) == NoArm
    ensures CaseOf(v) == c ==> Applied(Lexical, w, k, FunctionOf(1, CaseTest(c), map[]), [v]).Stuck?
  {
    var f := FunctionReads(w, k, 1, CaseTest(c), map[], [v]);
    var arm := CaseTest(c).arms[0];
    OneArm(w, k, v, arm, arm.selects[0], f);
    assert Eval(Lexical, w, k, Read(0, Never), f) == Answered(v, k);
    assert 1 !in Bind(f, map[]).bindings;
  }

  /** What is captured under a number past the argument, read in a body. */
  const HELD := Read(1, Never)

  /** The test handed over run on what a present value holds. */
  const HELDTEST := Match(Read(0, Never), [Arm([Held], Payload(2, Never), Apply(HELD, [Read(2, Never)], Never))], Never)

  lemma HeldTestRuns(w: World, k: nat, t: Value, v: Value)
    ensures var o := Applied(Lexical, w, k, FunctionOf(1, HELDTEST, map[1 := t]), [v]);
      if v.AbsentOf? then o == NoArm
      else if !v.PresentOf? then o.Stuck?
      else if k == 0 then o == Exhausted
      else o == Applied(Lexical, w, k - 1, t, [v.value])
  {
    var f := FunctionReads(w, k, 1, HELDTEST, map[1 := t], [v]);
    OneArm(w, k, v, HELDTEST.arms[0], Held, f);
    assert Eval(Lexical, w, k, Read(0, Never), f) == Answered(v, k);
    if v.PresentOf? { ReadApplied(w, k, 1, 2, Bind(f, map[2 := v.value])); }
  }

  /** One binding applied to another. */
  lemma ReadApplied(w: World, k: nat, applied: nat, number: nat, f: Frame)
    requires applied in f.bindings && number in f.bindings
    ensures Eval(Lexical, w, k, Apply(Read(applied, Never), [Read(number, Never)], Never), f)
         == if k == 0 then Exhausted else Applied(Lexical, w, k - 1, f.bindings[applied], [f.bindings[number]])
  {
    ReadsAnswer(w, k, number, [f.bindings[number]], f);
    assert Reads(number, 1) == [Read(number, Never)];
  }

  /** The values under the numbers from one up, in order. */
  predicate HeldFrom(bindings: map<nat, Value>, from: nat, values: seq<Value>) {
    forall x: nat :: from <= x < from + |values| ==> x in bindings && bindings[x] == values[x - from]
  }

  /** So many reads, from one number up. */
  function Reads(from: nat, n: nat): (r: seq<Node>)
    ensures |r| == n
  {
    seq(n, i requires 0 <= i < n => Read(from + i, Never))
  }

  lemma {:induction false} ReadsAnswer(w: World, k: nat, from: nat, values: seq<Value>, f: Frame)
    requires HeldFrom(f.bindings, from, values)
    ensures EvalAll(Lexical, w, k, Reads(from, |values|), f) == AllAnswered(values, k)
    decreases |values|
  {
    if values != [] {
      var nodes := Reads(from, |values|);
      assert nodes[1..] == Reads(from + 1, |values| - 1);
      assert values == [values[0]] + values[1..];
      ReadsAnswer(w, k, from + 1, values[1..], f);
    }
  }

  lemma HeldTested(w: World, held: Ty, u: Value, t: Value) returns (r: Value)
    requires SafeOn(w, t, held)
    requires u.PresentOf? ==> Faults(w, t, u.value)
    requires !u.AbsentOf?
    ensures SafeOn(w, r, Optional(held)) && Faults(w, r, u)
  {
    r := FunctionOf(1, HELDTEST, map[1 := t]);
    forall j: nat, v | Of(w, j, v, Optional(held)) ensures !Applied(Lexical, w, j, r, [v]).Stuck? {
      HeldTestRuns(w, j, t, v);
      if v.PresentOf? && j > 0 { Down(w, j, j - 1, v.value, held); }
    }
    if u.PresentOf? {
      var k: nat :| FaultsAt(w, k, t, u.value);
      HeldTestRuns(w, k + 1, t, u);
      assert FaultsAt(w, k + 1, r, u);
    } else {
      HeldTestRuns(w, 0, t, u);
      assert FaultsAt(w, 0, r, u);
    }
  }

  /** The test handed over run on the first element of a list. */
  const FIRSTTEST := Walk(BuildsList, [], 2, 3, Let(4, Never, Apply(HELD, [Read(3, Never)], Never), Unreachable(Never), Never),
                          [], Never, Read(0, Never), Literal(Whole(0), Never), Never)

  lemma FirstTestRuns(w: World, k: nat, t: Value, v: Value)
    ensures var o := Applied(Lexical, w, k, FunctionOf(1, FIRSTTEST, map[1 := t]), [v]);
      if !v.Elements? then o.Stuck?
      else if v.elements == [] then !o.Stuck?
      else if k == 0 then o == Exhausted
      else o.Stuck? <==> Applied(Lexical, w, k - 1, t, [v.elements[0]]).Stuck?
  {
    var f := FunctionReads(w, k, 1, FIRSTTEST, map[1 := t], [v]);
    assert Eval(Lexical, w, k, Read(0, Never), f) == Answered(v, k);
    assert Eval(Lexical, w, k, Literal(Whole(0), Never), f) == Answered(ScalarOf(Whole(0)), k);
    assert EvalAround(Lexical, w, k, [], f) == InFrame(f, k);
    if v.Elements? {
      assert Rest(v.elements, 0) == v.elements;
      assert Eval(Lexical, w, k, FIRSTTEST, f) == Stepped(Lexical, w, k, BuildsList, FIRSTTEST.body, f, 2, 3, GrowingOf([]), v.elements);
      if v.elements != [] {
        var g := Bind(f, map[2 := GrowingOf([]), 3 := v.elements[0]]);
        FirstStepRuns(w, k, t, v.elements[0], g);
      }
    }
  }

  lemma FirstStepRuns(w: World, k: nat, t: Value, first: Value, g: Frame)
    requires 1 in g.bindings && g.bindings[1] == t && 3 in g.bindings && g.bindings[3] == first
    ensures var o := Eval(Lexical, w, k, FIRSTTEST.body, g);
      if k == 0 then o == Exhausted
      else !o.Answered? && (o.Stuck? <==> Applied(Lexical, w, k - 1, t, [first]).Stuck?)
  {
    ReadApplied(w, k, 1, 3, g);
  }

  lemma FirstTested(w: World, element: Ty, u: Value, t: Value) returns (r: Value)
    requires SafeOn(w, t, element)
    requires u.Elements? ==> u.elements != [] && Faults(w, t, u.elements[0])
    ensures SafeOn(w, r, List(element)) && Faults(w, r, u)
  {
    r := FunctionOf(1, FIRSTTEST, map[1 := t]);
    forall j: nat, v | Of(w, j, v, List(element)) ensures !Applied(Lexical, w, j, r, [v]).Stuck? {
      FirstTestRuns(w, j, t, v);
      if v.elements != [] && j > 0 { Down(w, j, j - 1, v.elements[0], element); }
    }
    if u.Elements? {
      var k: nat :| FaultsAt(w, k, t, u.elements[0]);
      FirstTestRuns(w, k + 1, t, u);
      assert FaultsAt(w, k + 1, r, u);
    } else {
      FirstTestRuns(w, 0, t, u);
      assert FaultsAt(w, 0, r, u);
    }
  }

  /** The test handed over run on what a function answers, itself run on what is captured. */
  function AnswerTest(n: nat): Node {
    Apply(HELD, [Apply(Read(0, Never), Reads(2, n), Never)], Never)
  }

  function Capturing(t: Value, values: seq<Value>): (r: map<nat, Value>)
    ensures forall x: nat :: x in r ==> x >= 1
    ensures 1 in r && r[1] == t
    ensures HeldFrom(r, 2, values)
  {
    map x: nat | 1 <= x < |values| + 2 :: CapturedAt(t, values, x)
  }

  function CapturedAt(t: Value, values: seq<Value>, x: nat): Value
    requires 1 <= x < |values| + 2
  {
    if x == 1 then t else values[x - 2]
  }

  /** What is held under 1, applied to what one node comes to. */
  lemma HeldOf(w: World, k: nat, node: Node, t: Value, f: Frame)
    requires 1 in f.bindings && f.bindings[1] == t
    ensures var o := Eval(Lexical, w, k, node, f);
      Eval(Lexical, w, k, Apply(HELD, [node], Never), f)
        == if !o.Answered? then o else if o.left == 0 then Exhausted else Applied(Lexical, w, o.left - 1, t, [o.value])
  {
    var nodes := [node];
    assert nodes[1..] == [];
    assert Eval(Lexical, w, k, HELD, f) == Answered(t, k);
    var o := Eval(Lexical, w, k, node, f);
    if o.Answered? {
      assert EvalAll(Lexical, w, o.left, nodes[1..], f) == AllAnswered([], o.left);
      assert EvalAll(Lexical, w, k, nodes, f) == AllAnswered([o.value], o.left);
    }
  }

  lemma AnswerTestFrame(w: World, k: nat, body: Node, captured: map<nat, Value>, arguments: seq<Value>, v: Value) returns (f: Frame)
    requires forall x: nat :: x in captured ==> x >= 1
    requires 1 in captured && HeldFrom(captured, 2, arguments)
    ensures Applied(Lexical, w, k, FunctionOf(1, body, captured), [v]) == Eval(Lexical, w, k, body, f)
    ensures 1 in f.bindings && f.bindings[1] == captured[1] && 0 in f.bindings && f.bindings[0] == v
    ensures EvalAll(Lexical, w, k, Reads(2, |arguments|), f) == AllAnswered(arguments, k)
  {
    f := FunctionReads(w, k, 1, body, captured, [v]);
    ReadsAnswer(w, k, 2, arguments, f);
  }

  /** The first function run on a value is the second run on what the value answers for the arguments. */
  ghost predicate TestsAnswer(w: World, r: Value, t: Value, arguments: seq<Value>) {
    forall k: nat, v {:trigger Applied(Lexical, w, k, r, [v])} :: AnswerTestedTo(w, k, Applied(Lexical, w, k, r, [v]), t, v, arguments)
  }

  ghost predicate AnswerTestedTo(w: World, k: nat, o: Outcome, t: Value, v: Value, arguments: seq<Value>) {
    if k == 0 then o == Exhausted
    else
      var answered := Applied(Lexical, w, k - 1, v, arguments);
      if !answered.Answered? then o == answered
      else if answered.left == 0 then o == Exhausted
      else o == Applied(Lexical, w, answered.left - 1, t, [answered.value])
  }

  lemma AnswerTestEval(w: World, k: nat, t: Value, arguments: seq<Value>, v: Value, f: Frame)
    requires 1 in f.bindings && f.bindings[1] == t && 0 in f.bindings && f.bindings[0] == v
    requires EvalAll(Lexical, w, k, Reads(2, |arguments|), f) == AllAnswered(arguments, k)
    ensures AnswerTestedTo(w, k, Eval(Lexical, w, k, AnswerTest(|arguments|), f), t, v, arguments)
  {
    var inner := Apply(Read(0, Never), Reads(2, |arguments|), Never);
    assert Eval(Lexical, w, k, inner, f) == if k == 0 then Exhausted else Applied(Lexical, w, k - 1, v, arguments);
    HeldOf(w, k, inner, t, f);
  }

  lemma AnswerTestRuns(w: World, t: Value, arguments: seq<Value>) returns (r: Value)
    ensures TestsAnswer(w, r, t, arguments)
  {
    var body, captured := AnswerTest(|arguments|), Capturing(t, arguments);
    r := FunctionOf(1, body, captured);
    forall k: nat, v ensures AnswerTestedTo(w, k, Applied(Lexical, w, k, r, [v]), t, v, arguments) {
      var f := AnswerTestFrame(w, k, body, captured, arguments, v);
      AnswerTestEval(w, k, t, arguments, v, f);
    }
  }

  lemma AnswerTested(w: World, takes: seq<Ty>, answers: Ty, arguments: seq<Value>, t: Value) returns (r: Value)
    requires AllLasting(w, arguments, takes)
    requires SafeOn(w, t, answers)
    ensures SafeOn(w, r, Fn(takes, answers)) && TestsAnswer(w, r, t, arguments)
  {
    r := AnswerTestRuns(w, t, arguments);
    forall j: nat, v | Of(w, j, v, Fn(takes, answers)) ensures !Applied(Lexical, w, j, r, [v]).Stuck? {
      if j > 0 {
        AllLastingOf(w, j - 1, arguments, takes);
        var o := Applied(Lexical, w, j - 1, v, arguments);
        assert Safe(w, o, answers);
        if o.Answered? && o.left > 0 { Down(w, o.left, o.left - 1, o.value, answers); }
      }
    }
  }

  ghost predicate AllLasting(w: World, values: seq<Value>, tys: seq<Ty>) {
    |values| == |tys| && forall i :: 0 <= i < |tys| ==> Lasting(w, values[i], tys[i])
  }

  lemma AllLastingOf(w: World, k: nat, values: seq<Value>, tys: seq<Ty>)
    requires AllLasting(w, values, tys)
    ensures AllOf(w, k, values, tys)
  {
    forall i | 0 <= i < |values| ensures Of(w, k, values[i], tys[i]) { assert Lasting(w, values[i], tys[i]); }
  }

  // ----- what does not fit is told apart -----

  /** What a function of so many parameters answers whatever it is handed. */
  lemma ConstantIsOf(w: World, v: Value, takes: seq<Ty>, answers: Ty)
    requires Lasting(w, v, answers)
    ensures Lasting(w, Constant(|takes|, v), Fn(takes, answers))
  {
    forall k: nat ensures Of(w, k, Constant(|takes|, v), Fn(takes, answers)) {
      forall j: nat, arguments: seq<Value> | j < k && AllOf(w, j, arguments, takes)
        ensures Safe(w, Applied(Lexical, w, j, Constant(|takes|, v), arguments), answers)
      {
        ConstantRuns(w, j, |takes|, v, arguments);
      }
    }
  }

  function Constant(n: nat, v: Value): Value {
    FunctionOf(n, Read(n, Never), map[n := v])
  }

  lemma ConstantRuns(w: World, k: nat, n: nat, v: Value, arguments: seq<Value>)
    requires |arguments| == n
    ensures Applied(Lexical, w, k, Constant(n, v), arguments) == Answered(v, k)
  {
    var _ := FunctionReads(w, k, n, Read(n, Never), map[n := v], arguments);
  }

  /** Runs a test on one of its arguments and never answers. */
  function Testing(n: nat, at: nat, t: Value): Value {
    FunctionOf(n, TestingBody(n, at), map[n := t])
  }

  function TestingBody(n: nat, at: nat): Node {
    Let(n + 1, Never, Apply(Read(n, Never), [Read(at, Never)], Never), Unreachable(Never), Never)
  }

  /** Worked out for whether it can be, and never answering. */
  lemma TestThenTrap(w: World, k: nat, number: nat, node: Node, f: Frame)
    ensures var o, tested := Eval(Lexical, w, k, Let(number, Never, node, Unreachable(Never), Never), f), Eval(Lexical, w, k, node, f);
      if tested.Answered? then o == Ended else o == tested
  {
  }

  lemma TestingRuns(w: World, k: nat, n: nat, at: nat, t: Value, arguments: seq<Value>)
    requires |arguments| == n && at < n
    ensures var o := Applied(Lexical, w, k, Testing(n, at, t), arguments);
      if k == 0 then o == Exhausted
      else !o.Answered? && (o.Stuck? <==> Applied(Lexical, w, k - 1, t, [arguments[at]]).Stuck?)
  {
    var f := FunctionReads(w, k, n, TestingBody(n, at), map[n := t], arguments);
    ReadApplied(w, k, n, at, f);
    TestThenTrap(w, k, n + 1, TestingBody(n, at).value, f);
  }

  lemma TestingIsOf(w: World, at: nat, t: Value, takes: seq<Ty>, answers: Ty)
    requires at < |takes| && SafeOn(w, t, takes[at])
    ensures Lasting(w, Testing(|takes|, at, t), Fn(takes, answers))
  {
    forall k: nat ensures Of(w, k, Testing(|takes|, at, t), Fn(takes, answers)) {
      forall j: nat, arguments: seq<Value> | j < k && AllOf(w, j, arguments, takes)
        ensures Safe(w, Applied(Lexical, w, j, Testing(|takes|, at, t), arguments), answers)
      {
        TestingRuns(w, j, |takes|, at, t, arguments);
        if j > 0 { Down(w, j, j - 1, arguments[at], takes[at]); }
      }
    }
  }

  /** A function of another number of parameters, or what is no function, cannot be run at all. */
  lemma ArityFaults(w: World, r: Value, u: Value, t: Value, arguments: seq<Value>)
    requires TestsAnswer(w, r, t, arguments)
    requires u.Closure? ==> |u.parameters| != |arguments|
    ensures Faults(w, r, u)
  {
    assert AnswerTestedTo(w, 1, Applied(Lexical, w, 1, r, [u]), t, u, arguments);
    assert FaultsAt(w, 1, r, u);
  }

  lemma ConstantFaults(w: World, r: Value, v: Value, t: Value, arguments: seq<Value>)
    requires TestsAnswer(w, r, t, arguments) && Faults(w, t, v)
    ensures Faults(w, r, Constant(|arguments|, v))
  {
    var k: nat :| FaultsAt(w, k, t, v);
    ConstantRuns(w, k + 1, |arguments|, v, arguments);
    var u := Constant(|arguments|, v);
    assert AnswerTestedTo(w, k + 2, Applied(Lexical, w, k + 2, r, [u]), t, u, arguments);
    assert FaultsAt(w, k + 2, r, u);
  }

  lemma TestingFaults(w: World, r: Value, at: nat, t: Value, s: Value, arguments: seq<Value>)
    requires TestsAnswer(w, r, s, arguments)
    requires at < |arguments| && Faults(w, t, arguments[at])
    ensures Faults(w, r, Testing(|arguments|, at, t))
  {
    var k: nat :| FaultsAt(w, k, t, arguments[at]);
    TestingRuns(w, k + 1, |arguments|, at, t, arguments);
    var u := Testing(|arguments|, at, t);
    assert AnswerTestedTo(w, k + 2, Applied(Lexical, w, k + 2, r, [u]), s, u, arguments);
    assert FaultsAt(w, k + 2, r, u);
  }

  lemma PresentLasting(w: World, v: Value, held: Ty)
    ensures Lasting(w, PresentOf(v), Optional(held)) <==> Lasting(w, v, held)
  {
    assert forall k: nat :: Of(w, k, PresentOf(v), Optional(held)) <==> Of(w, k, v, held);
  }

  lemma SingleLasting(w: World, v: Value, element: Ty)
    ensures Lasting(w, Elements([v]), List(element)) <==> Lasting(w, v, element)
    ensures Lasting(w, SetOf([v]), Set(element)) <==> Lasting(w, v, element)
  {
    forall k: nat ensures Of(w, k, Elements([v]), List(element)) <==> Of(w, k, v, element) {
      assert Elements([v]).elements[0] == v;
    }
    forall k: nat ensures Of(w, k, SetOf([v]), Set(element)) <==> Of(w, k, v, element) {
      assert SetOf([v]).elements[0] == v;
    }
  }

  /** Where one type does not fit another and both can be taken apart, there is a value of the one and
      a function that runs on every value of the other and gets stuck on that value. */
  lemma {:induction false} ToldApart(w: World, x: Ty, y: Ty, up: bool) returns (u: Value, t: Value)
    requires !FitsToward(w.declared, x, y, up)
    requires Full(w, if up then x else y) && AllNamed(w, if up then y else x)
    requires TakenApart(x) && TakenApart(y)
    ensures Lasting(w, u, if up then x else y)
    ensures SafeOn(w, t, if up then y else x) && Faults(w, t, u)
    decreases x, 1
  {
    var actual, expected := if up then x else y, if up then y else x;
    if actual.Optional? && expected.Optional? {
      var v, s := ToldApart(w, x.held, y.held, up);
      PresentLasting(w, v, actual.held);
      u := PresentOf(v);
      t := HeldTested(w, expected.held, u, s);
    } else if actual.List? && expected.List? {
      var v, s := ToldApart(w, x.element, y.element, up);
      SingleLasting(w, v, actual.element);
      u := Elements([v]);
      t := FirstTested(w, expected.element, u, s);
    } else if actual.Fn? && expected.Fn? {
      u, t := FunctionsToldApart(w, x, y, up);
    } else {
      u, t := ShapesToldApart(w, actual, expected);
    }
  }

  /** Functions are told apart by how many parameters they have, by one that tests what it is handed,
      or by one that answers what tells the answers apart. */
  lemma {:induction false} FunctionsToldApart(w: World, x: Ty, y: Ty, up: bool) returns (u: Value, t: Value)
    requires x.Fn? && y.Fn? && !FitsToward(w.declared, x, y, up)
    requires Full(w, if up then x else y) && AllNamed(w, if up then y else x)
    requires TakenApart(x) && TakenApart(y)
    ensures Lasting(w, u, if up then x else y)
    ensures SafeOn(w, t, if up then y else x) && Faults(w, t, u)
    decreases x, 0
  {
    var actual, expected := if up then x else y, if up then y else x;
    var n := |expected.takes|;
    var arguments := InhabitedAll(w, expected.takes);
    if |actual.takes| != n {
      u := FunctionOf(|actual.takes|, Unreachable(Never), map[]);
      TrapIsOf(w, actual.takes, actual.answers);
      TrapIsSafe(w, expected.answers);
      t := AnswerTested(w, expected.takes, expected.answers, arguments, TRAP);
      ArityFaults(w, t, u, TRAP, arguments);
    } else if i :| 0 <= i < n && !FitsToward(w.declared, x.takes[i], y.takes[i], !up) {
      FullIsNamed(w, actual.takes[i]);
      var v, s := ToldApart(w, x.takes[i], y.takes[i], !up);
      u := Testing(n, i, s);
      TestingIsOf(w, i, s, actual.takes, actual.answers);
      TrapIsSafe(w, expected.answers);
      t := AnswerTested(w, expected.takes, expected.answers, arguments[i := v], TRAP);
      TestingFaults(w, t, i, s, TRAP, arguments[i := v]);
    } else {
      var v, s := ToldApart(w, x.answers, y.answers, up);
      u := Constant(n, v);
      ConstantIsOf(w, v, actual.takes, actual.answers);
      t := AnswerTested(w, expected.takes, expected.answers, arguments, s);
      ConstantFaults(w, t, v, s, arguments);
    }
  }

  /** A value of the type with no case the other type has. */
  lemma OfNoSuchCase(w: World, actual: Ty, expected: Ty) returns (u: Value)
    requires Full(w, actual) && CasesOf(w.declared, expected).Some?
    requires OfCasesOnly(actual) ==> !CasesWithin(w.declared, actual, expected)
    ensures Lasting(w, u, actual)
    ensures CaseOf(u).Some? ==> CaseOf(u).value !in CasesOf(w.declared, expected).value
  {
    if OfCasesOnly(actual) {
      var c :| c in CasesOf(w.declared, actual).value && c !in CasesOf(w.declared, expected).value;
      u := CaseValue(w, actual, c);
      assert IsCase(w, 0, u, [c]);
    } else {
      u := Inhabited(w, actual);
      assert Of(w, 0, u, actual);
    }
  }

  /** The two are made of different things, or of cases not all the other's. */
  ghost predicate OtherShape(d: Declared, actual: Ty, expected: Ty) {
    !SameShape(actual, expected) && (OfCasesOnly(actual) && OfCasesOnly(expected) ==> !CasesWithin(d, actual, expected))
  }

  lemma ShapesToldApart(w: World, actual: Ty, expected: Ty) returns (u: Value, t: Value)
    requires OtherShape(w.declared, actual, expected)
    requires Full(w, actual) && AllNamed(w, expected) && TakenApart(actual) && TakenApart(expected)
    ensures Lasting(w, u, actual)
    ensures SafeOn(w, t, expected) && Faults(w, t, u)
  {
    if OfCasesOnly(expected) {
      u := OfNoSuchCase(w, actual, expected);
      t := CaseTested(w, expected, u);
    } else {
      u := Inhabited(w, actual);
      assert Of(w, 0, u, actual);
      TrapIsSafe(w, Never);
      if expected.Optional? {
        TrapIsSafe(w, expected.held);
        t := HeldTested(w, expected.held, u, TRAP);
      } else if expected.List? {
        TrapIsSafe(w, expected.element);
        t := FirstTested(w, expected.element, u, TRAP);
      } else if expected.Fn? {
        TrapIsSafe(w, expected.answers);
        var arguments := InhabitedAll(w, expected.takes);
        t := AnswerTested(w, expected.takes, expected.answers, arguments, TRAP);
        ArityFaults(w, t, u, TRAP, arguments);
      } else {
        t := FaultsOnAny(w, u, expected);
      }
    }
  }

  /** Of a type with no values, everything is told. */
  lemma FaultsOnAny(w: World, u: Value, ty: Ty) returns (t: Value)
    requires HasNoValue(ty) || ty.Var?
    ensures SafeOn(w, t, ty) && Faults(w, t, u)
  {
    t := FunctionOf(1, HELD, map[]);
    var _ := FunctionReads(w, 0, 1, HELD, map[], [u]);
    assert FaultsAt(w, 0, t, u);
  }

  lemma ShapesRefuted(w: World, actual: Ty, expected: Ty) returns (u: Value)
    requires OtherShape(w.declared, actual, expected) && Full(w, actual) && AllNamed(w, expected)
    ensures Lasting(w, u, actual) && !Lasting(w, u, expected)
  {
    if OfCasesOnly(expected) {
      u := OfNoSuchCase(w, actual, expected);
      OfCases(w, 0, u, expected);
      assert !Of(w, 0, u, expected);
    } else {
      u := Inhabited(w, actual);
      assert Of(w, 0, u, actual);
      assert !Of(w, 0, u, expected);
    }
  }

  lemma {:induction false} HoldersRefuted(w: World, actual: Ty, expected: Ty) returns (u: Value)
    requires (actual.Optional? && expected.Optional?) || (actual.List? && expected.List?) || (actual.Set? && expected.Set?)
    requires !Fits(w.declared, actual, expected) && Full(w, actual) && AllNamed(w, expected)
    ensures Lasting(w, u, actual) && !Lasting(w, u, expected)
    decreases actual, 0
  {
    match actual
    case Optional(a) =>
      var v := Refuted(w, a, expected.held);
      PresentLasting(w, v, a);
      PresentLasting(w, v, expected.held);
      u := PresentOf(v);
    case List(a) =>
      var v := Refuted(w, a, expected.element);
      SingleLasting(w, v, a);
      SingleLasting(w, v, expected.element);
      u := Elements([v]);
    case Set(a) =>
      var v := Refuted(w, a, expected.element);
      SingleLasting(w, v, a);
      SingleLasting(w, v, expected.element);
      u := SetOf([v]);
  }

  lemma {:induction false} MapsRefuted(w: World, actual: Ty, expected: Ty) returns (u: Value)
    requires actual.Map? && expected.Map? && !Fits(w.declared, actual, expected)
    requires Full(w, actual) && AllNamed(w, expected)
    ensures Lasting(w, u, actual) && !Lasting(w, u, expected)
    decreases actual, 0
  {
    var key, value;
    if !Fits(w.declared, actual.key, expected.key) {
      key := Refuted(w, actual.key, expected.key);
      value := Inhabited(w, actual.value);
    } else {
      key := Inhabited(w, actual.key);
      value := Refuted(w, actual.value, expected.value);
    }
    u := MapOf([key], [value]);
    EntryOf(w, key, value, actual);
    EntryOf(w, key, value, expected);
  }

  lemma EntryOf(w: World, key: Value, value: Value, ty: Ty)
    requires ty.Map?
    ensures Lasting(w, MapOf([key], [value]), ty) <==> Lasting(w, key, ty.key) && Lasting(w, value, ty.value)
  {
    var v := MapOf([key], [value]);
    forall k: nat ensures Of(w, k, v, ty) <==> Of(w, k, key, ty.key) && Of(w, k, value, ty.value) {
      assert v.keys[0] == key && v.values[0] == value;
    }
  }

  lemma {:induction false} TuplesRefuted(w: World, actual: Ty, expected: Ty) returns (u: Value)
    requires actual.Tuple? && expected.Tuple? && !Fits(w.declared, actual, expected)
    requires Full(w, actual) && AllNamed(w, expected)
    ensures Lasting(w, u, actual) && !Lasting(w, u, expected)
    decreases actual, 0
  {
    var values := InhabitedAll(w, actual.members);
    if |actual.members| != |expected.members| {
      u := Members(values);
      assert !Of(w, 0, u, expected);
    } else {
      var i :| 0 <= i < |actual.members| && !Fits(w.declared, actual.members[i], expected.members[i]);
      var v := Refuted(w, actual.members[i], expected.members[i]);
      u := Members(values[i := v]);
      var k: nat :| !Of(w, k, v, expected.members[i]);
      assert !Of(w, k, u.members[i], expected.members[i]);
      assert !Of(w, k, u, expected);
    }
  }

  lemma {:induction false} FunctionsRefuted(w: World, actual: Ty, expected: Ty) returns (u: Value)
    requires actual.Fn? && expected.Fn? && !Fits(w.declared, actual, expected)
    requires Full(w, actual) && AllNamed(w, expected)
    ensures Lasting(w, u, actual) && !Lasting(w, u, expected)
    decreases actual, 0
  {
    var n := |expected.takes|;
    var arguments := InhabitedAll(w, expected.takes);
    if |actual.takes| != n || exists i :: 0 <= i < n && !FitsToward(w.declared, actual.takes[i], expected.takes[i], false) {
      u := TakesRefuted(w, actual, expected, arguments);
    } else {
      var v := Refuted(w, actual.answers, expected.answers);
      u := Constant(n, v);
      ConstantIsOf(w, v, actual.takes, actual.answers);
      var k: nat :| !Of(w, k, v, expected.answers);
      AllLastingOf(w, k, arguments, expected.takes);
      ConstantRuns(w, k, n, v, arguments);
      assert Applied(Lexical, w, k, u, arguments) == Answered(v, k);
      assert !Of(w, k + 1, u, expected);
    }
  }

  lemma {:induction false} TakesRefuted(w: World, actual: Ty, expected: Ty, arguments: seq<Value>) returns (u: Value)
    requires actual.Fn? && expected.Fn? && Full(w, actual) && AllNamed(w, expected)
    requires AllLasting(w, arguments, expected.takes)
    requires |actual.takes| != |expected.takes|
          || exists i :: 0 <= i < |actual.takes| && !FitsToward(w.declared, actual.takes[i], expected.takes[i], false)
    ensures Lasting(w, u, actual) && !Lasting(w, u, expected)
  {
    TrapIsSafe(w, expected.answers);
    if |actual.takes| != |expected.takes| {
      u := FunctionOf(|actual.takes|, Unreachable(Never), map[]);
      TrapIsOf(w, actual.takes, actual.answers);
      var t := AnswerTested(w, expected.takes, expected.answers, arguments, TRAP);
      ArityFaults(w, t, u, TRAP, arguments);
      FaultingIsNotOf(w, t, u, expected);
    } else {
      var i :| 0 <= i < |actual.takes| && !FitsToward(w.declared, actual.takes[i], expected.takes[i], false);
      FullIsNamed(w, actual.takes[i]);
      var v, s := ToldApart(w, actual.takes[i], expected.takes[i], false);
      u := Testing(|actual.takes|, i, s);
      TestingIsOf(w, i, s, actual.takes, actual.answers);
      var t := AnswerTested(w, expected.takes, expected.answers, arguments[i := v], TRAP);
      TestingFaults(w, t, i, s, TRAP, arguments[i := v]);
      FaultingIsNotOf(w, t, u, expected);
    }
  }

  /** Where one type does not fit another, there is a value of the one that is not of the other. */
  lemma {:induction false} Refuted(w: World, actual: Ty, expected: Ty) returns (u: Value)
    requires !Fits(w.declared, actual, expected) && Full(w, actual) && AllNamed(w, expected)
    ensures Lasting(w, u, actual) && !Lasting(w, u, expected)
    decreases actual
  {
    if (actual.Optional? && expected.Optional?) || (actual.List? && expected.List?) || (actual.Set? && expected.Set?) {
      u := HoldersRefuted(w, actual, expected);
    } else if actual.Map? && expected.Map? {
      u := MapsRefuted(w, actual, expected);
    } else if actual.Tuple? && expected.Tuple? {
      u := TuplesRefuted(w, actual, expected);
    } else if actual.Fn? && expected.Fn? {
      u := FunctionsRefuted(w, actual, expected);
    } else {
      u := ShapesRefuted(w, actual, expected);
    }
  }

  /** What `Fits` decides, both ways: where every type in it has values, a type fits another exactly
      where every value of it is a value of the other. A sum or union is refused only for a case the
      other lacks, a structure for what it holds, and a function for what it takes or answers. */
  lemma FitsExactly(w: World, actual: Ty, expected: Ty)
    requires HasNoValue(actual) || Full(w, actual)
    requires AllNamed(w, expected)
    ensures Fits(w.declared, actual, expected) <==> forall v :: Lasting(w, v, actual) ==> Lasting(w, v, expected)
  {
    if Fits(w.declared, actual, expected) {
      forall v | Lasting(w, v, actual) ensures Lasting(w, v, expected) {
        forall k: nat ensures Of(w, k, v, expected) {
          assert Of(w, k, v, actual);
          FitsIsInclusion(w, k, v, actual, expected);
        }
      }
    } else {
      var u := Refuted(w, actual, expected);
      assert Lasting(w, u, actual) && !Lasting(w, u, expected);
    }
  }

  /** Whatever the types are, values or none, names known or not: a type fits itself, and what fits
      through another fits. */
  lemma {:induction false} FitsThrough(d: Declared, x: Ty, y: Ty, z: Ty, up: bool)
    ensures FitsToward(d, x, x, up)
    ensures FitsToward(d, x, y, up) && FitsToward(d, y, z, up) ==> FitsToward(d, x, z, up)
    decreases x
  {
    if x != y && y != z && x != z && FitsToward(d, x, y, up) && FitsToward(d, y, z, up) {
      if x.Optional? && y.Optional? && z.Optional? {
        FitsThrough(d, x.held, y.held, z.held, up);
      } else if x.List? && y.List? && z.List? {
        FitsThrough(d, x.element, y.element, z.element, up);
      } else if x.Set? && y.Set? && z.Set? {
        FitsThrough(d, x.element, y.element, z.element, up);
      } else if x.Map? && y.Map? && z.Map? {
        FitsThrough(d, x.key, y.key, z.key, up);
        FitsThrough(d, x.value, y.value, z.value, up);
      } else if x.Tuple? && y.Tuple? && z.Tuple? {
        EachThrough(d, x, x.members, y.members, z.members, up);
      } else if x.Fn? && y.Fn? && z.Fn? {
        EachThrough(d, x, x.takes, y.takes, z.takes, !up);
        FitsThrough(d, x.answers, y.answers, z.answers, up);
      } else {
        OtherwiseThrough(d, x, y, z, up);
      }
    }
  }

  /** Made of the same thing, so that what they hold is compared. */
  predicate SameShape(x: Ty, y: Ty) {
    || (x.Optional? && y.Optional?) || (x.List? && y.List?) || (x.Set? && y.Set?)
    || (x.Map? && y.Map?) || (x.Tuple? && y.Tuple?) || (x.Fn? && y.Fn?)
  }

  lemma OtherwiseThrough(d: Declared, x: Ty, y: Ty, z: Ty, up: bool)
    requires x != y && y != z && !(SameShape(x, y) && SameShape(y, z))
    requires FitsToward(d, x, y, up) && FitsToward(d, y, z, up)
    ensures FitsToward(d, x, z, up)
  {
    if !SameShape(x, y) {
      OtherwiseWithin(d, x, y, up);
    }
    if !SameShape(y, z) {
      OtherwiseWithin(d, y, z, up);
    }
    if !SameShape(x, z) && x != z {
      OtherwiseWithin(d, x, z, up);
    }
  }

  lemma OtherwiseWithin(d: Declared, x: Ty, y: Ty, up: bool)
    requires !SameShape(x, y) && x != y
    ensures FitsToward(d, x, y, up)
       <==> HasNoValue(if up then x else y) || if up then CasesWithin(d, x, y) else CasesWithin(d, y, x)
  {
  }

  predicate EachToward(d: Declared, xs: seq<Ty>, ys: seq<Ty>, up: bool) {
    |xs| == |ys| && forall i :: 0 <= i < |xs| ==> FitsToward(d, xs[i], ys[i], up)
  }

  lemma {:induction false} EachThrough(d: Declared, around: Ty, xs: seq<Ty>, ys: seq<Ty>, zs: seq<Ty>, up: bool)
    requires forall i :: 0 <= i < |xs| ==> xs[i] < around
    requires EachToward(d, xs, ys, up) && EachToward(d, ys, zs, up)
    ensures EachToward(d, xs, zs, up)
    decreases around, 0
  {
    forall i | 0 <= i < |xs| ensures FitsToward(d, xs[i], zs[i], up) { FitsThrough(d, xs[i], ys[i], zs[i], up); }
  }
}
