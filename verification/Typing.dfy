/** What it is for a value to be of a type, for as long as a number of steps lasts: a function is of
    its type where, handed values of what it takes with fewer steps to spend, running it takes no
    step it cannot take and answers only a value of what it answers. */
module Typing {
  import opened Transport
  import opened Declarations
  import opened Machine

  ghost predicate Of(w: World, k: nat, v: Value, ty: Ty)
    decreases k, v
  {
    match ty
    case Prim(prim) => v.ScalarOf? && PrimOf(v.scalar) == prim
    case Ref(named) =>
      CaseOf(v).Some? && CaseOf(v).value in LeavesOf(w.declared, [named]) && (v.Record? ==> (
        && v.declared in w.declared && !w.declared[v.declared].Sum?
        && |v.fields| == |FieldsOf(w.declared[v.declared])|
        && forall i :: 0 <= i < |v.fields| ==> Of(w, k, v.fields[i], FieldsOf(w.declared[v.declared])[i].ty)))
    case Union(cases) =>
      CaseOf(v).Some? && CaseOf(v).value in LeavesOf(w.declared, cases) && (v.Record? ==> (
        && v.declared in w.declared && !w.declared[v.declared].Sum?
        && |v.fields| == |FieldsOf(w.declared[v.declared])|
        && forall i :: 0 <= i < |v.fields| ==> Of(w, k, v.fields[i], FieldsOf(w.declared[v.declared])[i].ty)))
    case Optional(held) => v.AbsentOf? || (v.PresentOf? && Of(w, k, v.value, held))
    case Tuple(members) =>
      v.Members? && |v.members| == |members| && forall i :: 0 <= i < |members| ==> Of(w, k, v.members[i], members[i])
    case List(element) => v.Elements? && forall i :: 0 <= i < |v.elements| ==> Of(w, k, v.elements[i], element)
    case Set(element) => v.SetOf? && forall i :: 0 <= i < |v.elements| ==> Of(w, k, v.elements[i], element)
    case Map(key, value) =>
      && v.MapOf? && |v.keys| == |v.values|
      && (forall i :: 0 <= i < |v.keys| ==> Of(w, k, v.keys[i], key))
      && (forall i :: 0 <= i < |v.values| ==> Of(w, k, v.values[i], value))
    case Fn(takes, answers) =>
      (v.Closure? || v.NoCode?) &&
      forall j: nat, arguments: seq<Value> {:trigger Applied(Lexical, w, j, v, arguments)} ::
        j < k && |arguments| == |takes| && (forall i :: 0 <= i < |takes| ==> Of(w, j, arguments[i], takes[i])) ==>
          var o := Applied(Lexical, w, j, v, arguments);
          !o.Stuck? && (o.Answered? ==> Of(w, o.left, o.value, answers))
    case Var(_) => false
    case Nothing => false
    case Never => false
  }

  /** No step that cannot be taken, and a value of the type where there is one. */
  ghost predicate Safe(w: World, o: Outcome, ty: Ty) {
    !o.Stuck? && (o.Answered? ==> Of(w, o.left, o.value, ty))
  }

  ghost predicate AllOf(w: World, k: nat, values: seq<Value>, tys: seq<Ty>) {
    |values| == |tys| && forall i :: 0 <= i < |values| ==> Of(w, k, values[i], tys[i])
  }

  ghost predicate EachOf(w: World, k: nat, values: seq<Value>, ty: Ty) {
    forall i :: 0 <= i < |values| ==> Of(w, k, values[i], ty)
  }

  ghost predicate SafeAll(w: World, o: Outcomes, tys: seq<Ty>) {
    if o.Cut? then !o.outcome.Stuck? else AllOf(w, o.left, o.values, tys)
  }

  /** Being one of several cases, apart from how the type of them is written. */
  ghost predicate IsCase(w: World, k: nat, v: Value, cases: seq<Case>) {
    CaseOf(v).Some? && CaseOf(v).value in cases && (v.Record? ==> WellBuilt(w, k, v))
  }

  ghost predicate WellBuilt(w: World, k: nat, v: Value)
    requires v.Record?
  {
    && v.declared in w.declared && !w.declared[v.declared].Sum?
    && |v.fields| == |FieldsOf(w.declared[v.declared])|
    && forall i :: 0 <= i < |v.fields| ==> Of(w, k, v.fields[i], FieldsOf(w.declared[v.declared])[i].ty)
  }

  /** `Of` is downward closed in the number of steps. */
  lemma {:induction false} Down(w: World, k: nat, j: nat, v: Value, ty: Ty)
    requires j <= k && Of(w, k, v, ty)
    ensures Of(w, j, v, ty)
    decreases v
  {
    match ty
    case Ref(_) => DownFields(w, k, j, v);
    case Union(_) => DownFields(w, k, j, v);
    case Optional(held) => if v.PresentOf? { Down(w, k, j, v.value, held); }
    case Tuple(members) =>
      forall i | 0 <= i < |members| ensures Of(w, j, v.members[i], members[i]) {
        Down(w, k, j, v.members[i], members[i]);
      }
    case List(element) =>
      forall i | 0 <= i < |v.elements| ensures Of(w, j, v.elements[i], element) {
        Down(w, k, j, v.elements[i], element);
      }
    case Set(element) =>
      forall i | 0 <= i < |v.elements| ensures Of(w, j, v.elements[i], element) {
        Down(w, k, j, v.elements[i], element);
      }
    case Map(key, value) =>
      forall i | 0 <= i < |v.keys| ensures Of(w, j, v.keys[i], key) { Down(w, k, j, v.keys[i], key); }
      forall i | 0 <= i < |v.values| ensures Of(w, j, v.values[i], value) { Down(w, k, j, v.values[i], value); }
    case _ =>
  }

  lemma {:induction false} DownFields(w: World, k: nat, j: nat, v: Value)
    requires j <= k && (v.Record? ==> WellBuilt(w, k, v))
    ensures v.Record? ==> WellBuilt(w, j, v)
    decreases v, 0
  {
    if v.Record? {
      forall i | 0 <= i < |v.fields| ensures Of(w, j, v.fields[i], FieldsOf(w.declared[v.declared])[i].ty) {
        Down(w, k, j, v.fields[i], FieldsOf(w.declared[v.declared])[i].ty);
      }
    }
  }

  lemma DownAll(w: World, k: nat, j: nat, values: seq<Value>, tys: seq<Ty>)
    requires j <= k && AllOf(w, k, values, tys)
    ensures AllOf(w, j, values, tys)
  {
    forall i | 0 <= i < |values| ensures Of(w, j, values[i], tys[i]) { Down(w, k, j, values[i], tys[i]); }
  }

  lemma DownEach(w: World, k: nat, j: nat, values: seq<Value>, ty: Ty)
    requires j <= k && EachOf(w, k, values, ty)
    ensures EachOf(w, j, values, ty)
  {
    forall i | 0 <= i < |values| ensures Of(w, j, values[i], ty) { Down(w, k, j, values[i], ty); }
  }

  /** A value of a type made of cases is one of them, and one of them is a value of it. */
  lemma OfCases(w: World, k: nat, v: Value, ty: Ty)
    requires CasesOf(w.declared, ty).Some?
    ensures Of(w, k, v, ty) <==> IsCase(w, k, v, CasesOf(w.declared, ty).value)
  {
  }

  // ----- fitting is inclusion of values -----

  /** Every value of a type that fits another is a value of the other, functions included: at each
      number of steps, whichever of the two the walk over both began from. */
  lemma {:induction false} FitsTowardIncludes(w: World, k: nat, v: Value, x: Ty, y: Ty, up: bool)
    requires FitsToward(w.declared, x, y, up)
    requires Of(w, k, v, if up then x else y)
    ensures Of(w, k, v, if up then y else x)
    decreases x
  {
    if x != y {
      match (x, y)
      case (Optional(a), Optional(b)) => if v.PresentOf? { FitsTowardIncludes(w, k, v.value, a, b, up); }
      case (List(a), List(b)) => EachIncludes(w, k, v.elements, x, a, b, up);
      case (Set(a), Set(b)) => EachIncludes(w, k, v.elements, x, a, b, up);
      case (Map(a, c), Map(b, e)) =>
        EachIncludes(w, k, v.keys, x, a, b, up);
        EachIncludes(w, k, v.values, x, c, e, up);
      case (Tuple(a), Tuple(b)) =>
        forall i | 0 <= i < |a| ensures Of(w, k, v.members[i], if up then b[i] else a[i]) {
          FitsTowardIncludes(w, k, v.members[i], a[i], b[i], up);
        }
      case (Fn(a, p), Fn(b, q)) => FunctionIncludes(w, k, v, x, y, up);
      case _ =>
        OfCases(w, k, v, x);
        OfCases(w, k, v, y);
    }
  }

  lemma {:induction false} EachIncludes(w: World, k: nat, values: seq<Value>, around: Ty, a: Ty, b: Ty, up: bool)
    requires a < around && FitsToward(w.declared, a, b, up)
    requires EachOf(w, k, values, if up then a else b)
    ensures EachOf(w, k, values, if up then b else a)
    decreases around, 0
  {
    forall i | 0 <= i < |values| ensures Of(w, k, values[i], if up then b else a) {
      FitsTowardIncludes(w, k, values[i], a, b, up);
    }
  }

  lemma {:induction false} FunctionIncludes(w: World, k: nat, v: Value, x: Ty, y: Ty, up: bool)
    requires x.Fn? && y.Fn? && |x.takes| == |y.takes|
    requires forall i :: 0 <= i < |x.takes| ==> FitsToward(w.declared, x.takes[i], y.takes[i], !up)
    requires FitsToward(w.declared, x.answers, y.answers, up)
    requires Of(w, k, v, if up then x else y)
    ensures Of(w, k, v, if up then y else x)
    decreases x, 0
  {
    var actual, expected := if up then x else y, if up then y else x;
    forall j: nat, arguments: seq<Value> | j < k && AllOf(w, j, arguments, expected.takes)
      ensures Safe(w, Applied(Lexical, w, j, v, arguments), expected.answers)
    {
      forall i | 0 <= i < |x.takes| ensures Of(w, j, arguments[i], actual.takes[i]) {
        FitsTowardIncludes(w, j, arguments[i], x.takes[i], y.takes[i], !up);
      }
      var o := Applied(Lexical, w, j, v, arguments);
      if o.Answered? { FitsTowardIncludes(w, o.left, o.value, x.answers, y.answers, up); }
    }
  }

  /** What `Fits` decides: at every number of steps, `Of(.., actual)` implies `Of(.., expected)`. */
  lemma FitsIsInclusion(w: World, k: nat, v: Value, actual: Ty, expected: Ty)
    requires Fits(w.declared, actual, expected) && Of(w, k, v, actual)
    ensures Of(w, k, v, expected)
  {
    FitsTowardIncludes(w, k, v, actual, expected, true);
  }
}
