/** What crosses from the checker: types, declarations and the nodes of a body
    (native/crates/compiler/src/transport.rs), trimmed to the forms whose meaning is proved about. */
module Transport {
  import opened Options

  datatype OtherPrim = Decimal | Rational | Date | Time | DateTime | Instant

  datatype Prim = IntPrim | BoolPrim | StringPrim | OtherThan(other: OtherPrim)

  datatype LanguageCase = SomeCase | NoneCase | DivisionByZero | NotANumber | NotADate | NotATime
                        | NotWhole | NotAFiniteDecimal

  /** The three kinds of case: by key into the declarations, a primitive, or built in. */
  datatype Case = Declared(key: string) | Primitive(prim: Prim) | Language(which: LanguageCase)

  datatype Ty =
    | Prim(prim: Prim)
    | Ref(named: Case)
    | Union(cases: seq<Case>)
    | Optional(held: Ty)
    | Tuple(members: seq<Ty>)
    | Fn(takes: seq<Ty>, answers: Ty)
    | List(element: Ty)
    | Set(element: Ty)
    | Map(key: Ty, value: Ty)
    | Var(number: nat)
    | Nothing
    | Never

  /** Parameter types no arguments can have. */
  predicate NeverRuns(takes: seq<Ty>) {
    Nothing in takes
  }

  predicate HasNoValue(ty: Ty) {
    ty.Nothing? || ty.Never?
  }

  datatype Field = Field(name: string, ty: Ty)

  /** A clause as a departure answers it: by its name, where it has one. */
  type ClauseName = Option<string>

  datatype Declaration =
    | Product(fields: seq<Field>, clauses: seq<ClauseName>)
    | Newtype(field: Field, clauses: seq<ClauseName>)
    | UnitOf
    | Sum(cases: seq<Case>)

  /** A value a literal writes. */
  datatype Scalar = Whole(n: int) | Truth(b: bool) | Text(t: string) | Other(kind: OtherPrim, count: int, nano: int)

  function PrimOf(scalar: Scalar): Prim {
    match scalar
    case Whole(_) => IntPrim
    case Truth(_) => BoolPrim
    case Text(_) => StringPrim
    case Other(kind, _, _) => OtherThan(kind)
  }

  datatype Selects = Which(atoms: seq<Case>) | Held | Absence

  /** What an arm binds: nothing, the subject, or the value inside a present optional. */
  datatype ArmBinding = NoName | Selected(number: nat, readAs: Ty) | Payload(number: nat, readAs: Ty)

  datatype Arm = Arm(selects: seq<Selects>, binding: ArmBinding, body: Node)

  /** What a departure is written for: whichever clause breaks, or one clause. */
  datatype Taking = AnyClause | OneClause(clause: ClauseName)

  datatype Departure = Departure(taking: Taking, body: Node)

  /** A value bound around a walk's step. */
  datatype Around = Around(binding: nat, binds: Ty, value: Node)

  datatype Reaches =
    | Behavior(declared: string)
    | Helper(reached: string)
    | Kernel(kernel: string, settled: seq<Ty>)
    | GrowList
    | PutMap

  /** Which collection a walk builds. */
  datatype Builds = BuildsList | BuildsMap

  /** A node of a body. A walk is flattened: which collection it builds, the lets its step is under,
      the two numbers its step is handed values under, the step's body and signature, and then the
      two other arguments of the call. */
  datatype Node =
    | Literal(scalar: Scalar, ty: Ty)
    | Read(binding: nat, ty: Ty)
    | UnitNode(unit: Case, ty: Ty)
    | Unreachable(ty: Ty)
    | Construct(declared: string, values: seq<Node>, ty: Ty)
    | Attempt(declared: string, values: seq<Node>, binding: nat, binds: Ty, built: Node,
              departures: seq<Departure>, ty: Ty)
    | FieldOf(target: Node, name: string, ty: Ty)
    | Let(binding: nat, binds: Ty, value: Node, body: Node, ty: Ty)
    | If(cond: Node, yes: Node, no: Node, ty: Ty)
    | Match(subject: Node, arms: seq<Arm>, ty: Ty)
    | PresentNode(value: Node, ty: Ty)
    | AbsentNode(ty: Ty)
    | TupleNode(nodes: seq<Node>, ty: Ty)
    | Member(tuple: Node, at: nat, ty: Ty)
    | ListNode(nodes: seq<Node>, ty: Ty)
    | Call(reaches: Reaches, arguments: seq<Node>, ty: Ty)
    | Walk(builds: Builds, around: seq<Around>, grown: nat, each: nat, body: Node, takes: seq<Ty>, answers: Ty,
           walked: Node, from: Node, ty: Ty)
    | Block(site: nat, parameters: seq<nat>, body: Node, ty: Ty)
    | Apply(applied: Node, arguments: seq<Node>, ty: Ty)
    | Widen(value: Node, ty: Ty)

  /** The nodes right under a node, in the order every walk over a body takes them. */
  function Children(node: Node): (r: seq<Node>)
    ensures forall i :: 0 <= i < |r| ==> r[i] < node
  {
    match node
    case Construct(_, values, _) => values
    case Attempt(_, values, _, _, built, departures, _) =>
      values + [built] + seq(|departures|, i requires 0 <= i < |departures| => departures[i].body)
    case FieldOf(target, _, _) => [target]
    case Let(_, _, value, body, _) => [value, body]
    case If(cond, yes, no, _) => [cond, yes, no]
    case Match(subject, arms, _) => [subject] + seq(|arms|, i requires 0 <= i < |arms| => arms[i].body)
    case PresentNode(value, _) => [value]
    case TupleNode(nodes, _) => nodes
    case Member(tuple, _, _) => [tuple]
    case ListNode(nodes, _) => nodes
    case Call(_, arguments, _) => arguments
    case Walk(_, around, _, _, body, _, _, walked, from, _) =>
      seq(|around|, i requires 0 <= i < |around| => around[i].value) + [body, walked, from]
    case Block(_, _, body, _) => [body]
    case Apply(applied, arguments, _) => [applied] + arguments
    case Widen(value, _) => [value]
    case _ => []
  }

  datatype Answers = ByBody | Injected | Elsewhere | Composed | Unwritten

  datatype Target = Target(takes: seq<Ty>, answers: Ty, kind: Answers, requirements: seq<string>)

  datatype Routing = Always | OnCases(accepted: seq<Case>)

  datatype Stage = Stage(behavior: string, routing: Routing)

  datatype Definition =
    | BodyOf(requirements: seq<string>, body: Node)
    | StagesOf(requirements: seq<string>, stages: seq<Stage>)

  datatype HelperOf = HelperOf(takes: seq<Ty>, body: Node)

  // ----- parts of a body that are skipped (native/crates/compiler/src/unrun.rs) -----

  /** A function argument with parameters `NeverRuns`, to anything but a kernel. */
  predicate NeverApplied(reaches: Reaches, argument: Node) {
    !reaches.Kernel? && argument.ty.Fn? && NeverRuns(argument.ty.takes)
  }

  /** Containers whose only values are empty, by their element types. */
  predicate HoldsNoValue(ty: Ty) {
    match ty
    case Optional(held) => HasNoValue(held)
    case List(element) => HasNoValue(element)
    case Set(element) => HasNoValue(element)
    case Map(key, value) => HasNoValue(key) || HasNoValue(value)
    case _ => false
  }

  predicate NeverEntered(arm: Arm, subject: Ty) {
    HoldsNoValue(subject) && forall i :: 0 <= i < |arm.selects| ==> arm.selects[i].Held?
  }
}
