/** What running a body comes to. A run is handed a number of steps, spends one at each call and
    each application, and answers with what is left, so a body that does not end is one that
    exhausts every number of steps it is handed.

    What lowered code does is followed in its order (`lower`, `branched`, `enter_arm`, `walk_built`
    in native/crates/compiler/src/lib.rs): arms are tested as written and none standing is a trap,
    a function never applied is not worked out, and a step runs in the frame its walk stands in. */
module Machine {
  import opened Options
  import opened Transport
  import opened Declarations

  /** `GrowingOf` is the list a walk is growing, apart from every other value, and `Elements` once handed over. */
  datatype Value =
    | ScalarOf(scalar: Scalar)
    | Record(declared: string, fields: seq<Value>)
    | LanguageOf(which: LanguageCase)
    | AbsentOf
    | PresentOf(value: Value)
    | Members(members: seq<Value>)
    | Elements(elements: seq<Value>)
    | GrowingOf(elements: seq<Value>)
    | SetOf(elements: seq<Value>)
    | MapOf(keys: seq<Value>, values: seq<Value>)
    | Closure(parameters: seq<nat>, body: Node, frame: Frame)
    | NoCode

  /** A finite tree: a host's implementation by number, or a behavior with one capability for each place
      of its target's requirements. */
  datatype Capability = Hosted(id: int) | Bound(behavior: string, stands: seq<Capability>)

  datatype Environment = Unhanded | Handed(capabilities: seq<Capability>)

  /** What a body reads as it runs: its bindings, which behaviors it reaches through a capability
      (a fact of the code), and the capabilities, one for each, where it has them. */
  datatype Frame = Frame(bindings: map<nat, Value>, required: seq<string>, environment: Environment)

  /** Why a step could not be taken: the value was not of the shape the code reads it as, or the
      capability a call goes through was not there. */
  datatype Why = Misshapen | Missing

  datatype Outcome =
    | Answered(value: Value, left: nat)
    | Ended
    | NoArm
    | Stuck(why: Why)
    | Exhausted

  datatype Outcomes = AllAnswered(values: seq<Value>, left: nat) | Cut(outcome: Outcome)

  datatype Framed = InFrame(frame: Frame, left: nat) | Broke(outcome: Outcome)

  /** How the clauses of a declaration came out over its fields. */
  datatype Verdict = Holds | Breaks(clause: nat) | EndsRun

  /** Where a map's keys put a key: at the place of an equal one, after them all, or nowhere. */
  datatype Placed = Under(place: nat) | Fresh | NoRoom

  /** What a block is made into: with its whole lexical scope, or with what was planned for it. */
  datatype Policy = Lexical | Planned(kept: (Node, Frame) -> Frame)

  /** The document, and what it does not say: how a clause comes out, and what a kernel, another
      build's behavior and a host's implementation answer. */
  datatype World = World(
    declared: Declared,
    targets: map<string, Target>,
    definitions: map<string, Definition>,
    helpers: map<string, HelperOf>,
    verdict: (string, seq<Value>) -> Verdict,
    placed: (seq<Value>, Value) -> Placed,
    settles: (string, seq<Ty>, Ty) -> bool,
    kernel: (nat, string, seq<Value>) -> Outcome,
    outside: (nat, string, seq<Value>) -> Outcome,
    hosted: (nat, int, string, seq<Value>) -> Outcome)

  /** What is called outside the document spends steps of its own and gains none. */
  function Within(o: Outcome, k: nat): (r: Outcome)
    ensures r.Answered? ==> r.left <= k
    ensures o.Answered? ==> r.Answered? && r.value == o.value && r.left <= o.left
    ensures !o.Answered? ==> r == o
  {
    if o.Answered? && k < o.left then Answered(o.value, k) else o
  }

  // ----- reading a value -----

  /** The case a value's token says it is. */
  function CaseOf(v: Value): Option<Case> {
    match v
    case ScalarOf(scalar) => Some(Primitive(PrimOf(scalar)))
    case Record(key, _) => Some(Declared(key))
    case LanguageOf(which) => Some(Language(which))
    case _ => None
  }

  /** Whether a test stands, or none where the value has no such thing to test. */
  function Test(v: Value, select: Selects): Option<bool> {
    match select
    case Which(atoms) => (match CaseOf(v) case Some(c) => Some(c in atoms) case None => None)
    case Held => if v.PresentOf? || v.AbsentOf? then Some(v.PresentOf?) else None
    case Absence => if v.PresentOf? || v.AbsentOf? then Some(v.AbsentOf?) else None
  }

  /** Whether one of the tests stands, each being made. */
  function Tests(v: Value, selects: seq<Selects>): (r: Option<bool>)
    ensures r.Some? && r.value ==> exists i :: 0 <= i < |selects| && Test(v, selects[i]) == Some(true)
    ensures (forall i :: 0 <= i < |selects| ==> Test(v, selects[i]).Some?) ==> r.Some?
  {
    if selects == [] then Some(false)
    else
      match (Test(v, selects[0]), Tests(v, selects[1..]))
      case (Some(here), Some(later)) => Some(here || later)
      case _ => None
  }

  /** The bindings an arm adds to the frame, or `None` where its payload is not there to be bound. */
  function Named(v: Value, binding: ArmBinding): Option<map<nat, Value>> {
    match binding
    case NoName => Some(map[])
    case Selected(number, _) => Some(map[number := v])
    case Payload(number, _) => if v.PresentOf? then Some(map[number := v.value]) else None
  }

  function FieldIn(w: World, v: Value, name: string): Option<Value> {
    if v.Record? && v.declared in w.declared then
      match PositionOf(FieldsOf(w.declared[v.declared]), name)
      case Some(at) => if at < |v.fields| then Some(v.fields[at]) else None
      case None => None
    else None
  }

  function Bind(frame: Frame, bindings: map<nat, Value>): Frame {
    frame.(bindings := frame.bindings + bindings)
  }

  /** Each parameter's number with what is handed for it. */
  function Handing(parameters: seq<nat>, arguments: seq<Value>): map<nat, Value>
    requires |parameters| == |arguments|
  {
    if parameters == [] then map[]
    else
      var last := |parameters| - 1;
      Handing(parameters[..last], arguments[..last])[parameters[last] := arguments[last]]
  }

  /** A body's own parameters are numbered by where they stand. */
  function Positional(arguments: seq<Value>): map<nat, Value> {
    map i: nat | i < |arguments| :: arguments[i]
  }

  function PlaceOf(names: seq<string>, name: string): (r: Option<nat>)
    ensures r.Some? ==> r.value < |names| && names[r.value] == name
    ensures r.Some? <==> name in names
  {
    if names == [] then None
    else if names[0] == name then Some(0)
    else
      match PlaceOf(names[1..], name)
      case Some(at) => Some(at + 1)
      case None => None
  }

  function Kept(p: Policy, block: Node, f: Frame): Frame {
    match p
    case Lexical => f
    case Planned(kept) => kept(block, f)
  }

  /** The function value a block is made into: one with no code where its function never runs. */
  function Made(p: Policy, block: Node, f: Frame): Value
    requires block.Block?
  {
    if block.ty.Fn? && NeverRuns(block.ty.takes) then NoCode
    else Closure(block.parameters, block.body, Kept(p, block, f))
  }

  // ----- running -----

  function Eval(p: Policy, w: World, k: nat, node: Node, f: Frame): (o: Outcome)
    ensures o.Answered? ==> o.left <= k
    decreases k, 0, node, 0
  {
    match node
    case Literal(scalar, _) => Answered(ScalarOf(scalar), k)
    case Read(binding, _) =>
      if binding in f.bindings then Answered(f.bindings[binding], k) else Stuck(Misshapen)
    case UnitNode(unit, _) =>
      (match unit
       case Declared(key) => Answered(Record(key, []), k)
       case Language(which) => Answered(LanguageOf(which), k)
       case Primitive(_) => Ended)
    case Unreachable(_) => Ended
    case Construct(declared, values, _) =>
      (match EvalAll(p, w, k, values, f)
       case Cut(outcome) => outcome
       case AllAnswered(fields, left) => Built(w, declared, fields, left))
    case Attempt(declared, values, binding, _, built, departures, _) =>
      (match EvalAll(p, w, k, values, f)
       case Cut(outcome) => outcome
       case AllAnswered(fields, left) =>
         if declared !in w.declared then Stuck(Misshapen)
         else
           match w.verdict(declared, fields)
           case Holds => Eval(p, w, left, built, Bind(f, map[binding := Record(declared, fields)]))
           case EndsRun => Ended
           case Breaks(clause) =>
             match DepartureFor(ClausesOf(w.declared[declared]), departures, clause)
             case Some(at) => Eval(p, w, left, departures[at].body, f)
             case None => Stuck(Misshapen))
    case FieldOf(target, name, _) =>
      (match Eval(p, w, k, target, f)
       case Answered(v, left) =>
         (match FieldIn(w, v, name) case Some(held) => Answered(held, left) case None => Stuck(Misshapen))
       case other => other)
    case Let(binding, _, value, body, _) =>
      (match Eval(p, w, k, value, f)
       case Answered(v, left) => Eval(p, w, left, body, Bind(f, map[binding := v]))
       case other => other)
    case If(cond, yes, no, _) =>
      (match Eval(p, w, k, cond, f)
       case Answered(v, left) =>
         if !(v.ScalarOf? && v.scalar.Truth?) then Stuck(Misshapen)
         else if v.scalar.b then Eval(p, w, left, yes, f)
         else Eval(p, w, left, no, f)
       case other => other)
    case Match(subject, arms, _) =>
      (match Eval(p, w, k, subject, f)
       case Answered(v, left) => EvalArms(p, w, left, v, subject.ty, arms, f)
       case other => other)
    case PresentNode(value, _) =>
      (match Eval(p, w, k, value, f)
       case Answered(v, left) => Answered(PresentOf(v), left)
       case other => other)
    case AbsentNode(_) => Answered(AbsentOf, k)
    case TupleNode(nodes, _) =>
      (match EvalAll(p, w, k, nodes, f)
       case AllAnswered(values, left) => Answered(Members(values), left)
       case Cut(outcome) => outcome)
    case Member(tuple, at, _) =>
      (match Eval(p, w, k, tuple, f)
       case Answered(v, left) =>
         if v.Members? && at < |v.members| then Answered(v.members[at], left) else Stuck(Misshapen)
       case other => other)
    case ListNode(nodes, _) =>
      (match EvalAll(p, w, k, nodes, f)
       case AllAnswered(values, left) => Answered(Elements(values), left)
       case Cut(outcome) => outcome)
    case Call(reaches, arguments, _) =>
      (match EvalArguments(p, w, k, reaches, arguments, f)
       case AllAnswered(values, left) =>
         if reaches.GrowList? then Grown(values, left)
         else if reaches.PutMap? then Put(w, values, left)
         else if reaches.Kernel? then Within(w.kernel(left, reaches.kernel, values), left)
         else if left == 0 then Exhausted
         else if reaches.Helper? then RunHelper(p, w, left - 1, reaches.reached, values)
         else RunCall(p, w, left - 1, reaches.declared, values, f)
       case Cut(outcome) => outcome)
    case Walk(builds, around, grown, each, body, takes, _, walked, from, _) =>
      if NeverRuns(takes) then
        (match Eval(p, w, k, walked, f)
         case Answered(_, left) =>
           (match Eval(p, w, left, from, f)
            case Answered(_, left) => Answered(Sealed(Empty(builds)), left)
            case other => other)
         case other => other)
      else
        (match EvalAround(p, w, k, around, f)
         case Broke(outcome) => outcome
         case InFrame(g, left) =>
           match Eval(p, w, left, walked, g)
           case Answered(list, left) =>
             (match Eval(p, w, left, from, g)
              case Answered(at, left) =>
                if list.Elements? && at.ScalarOf? && at.scalar.Whole? then
                  Stepped(p, w, left, builds, body, g, grown, each, Empty(builds), Rest(list.elements, at.scalar.n))
                else Stuck(Misshapen)
              case other => other)
           case other => other)
    case Block(_, _, _, _) => Answered(Made(p, node, f), k)
    case Apply(applied, arguments, _) =>
      (match Eval(p, w, k, applied, f)
       case Answered(v, left) =>
         (match EvalAll(p, w, left, arguments, f)
          case AllAnswered(values, left) =>
            if left == 0 then Exhausted else Applied(p, w, left - 1, v, values)
          case Cut(outcome) => outcome)
       case other => other)
    case Widen(value, _) => Eval(p, w, k, value, f)
  }

  /** A function value applied: with no code, there is nothing to call. */
  function Applied(p: Policy, w: World, k: nat, v: Value, arguments: seq<Value>): (o: Outcome)
    ensures o.Answered? ==> o.left <= k
    decreases k, 1
  {
    if v.Closure? && |v.parameters| == |arguments| then
      Eval(p, w, k, v.body, Bind(v.frame, Handing(v.parameters, arguments)))
    else Stuck(Misshapen)
  }

  /** Nodes in order, stopping at the first that comes to no value. */
  function EvalAll(p: Policy, w: World, k: nat, nodes: seq<Node>, f: Frame): (o: Outcomes)
    ensures o.AllAnswered? ==> o.left <= k && |o.values| == |nodes|
    ensures o.Cut? ==> !o.outcome.Answered?
    decreases k, 0, nodes, 0
  {
    if nodes == [] then AllAnswered([], k)
    else
      match Eval(p, w, k, nodes[0], f)
      case Answered(v, left) =>
        (match EvalAll(p, w, left, nodes[1..], f)
         case AllAnswered(values, left) => AllAnswered([v] + values, left)
         case Cut(outcome) => Cut(outcome))
      case other => Cut(other)
  }

  /** An argument evaluated, or `NoCode` at no cost where `NeverApplied`. */
  function EvalArgument(p: Policy, w: World, k: nat, reaches: Reaches, node: Node, f: Frame): (o: Outcome)
    ensures o.Answered? ==> o.left <= k
    decreases k, 0, node, 1
  {
    if NeverApplied(reaches, node) then Answered(NoCode, k) else Eval(p, w, k, node, f)
  }

  /** What a call is handed. */
  function EvalArguments(p: Policy, w: World, k: nat, reaches: Reaches, nodes: seq<Node>, f: Frame): (o: Outcomes)
    ensures o.AllAnswered? ==> o.left <= k && |o.values| == |nodes|
    ensures o.Cut? ==> !o.outcome.Answered?
    decreases k, 0, nodes, 0
  {
    if nodes == [] then AllAnswered([], k)
    else
      match EvalArgument(p, w, k, reaches, nodes[0], f)
      case Answered(v, left) =>
        (match EvalArguments(p, w, left, reaches, nodes[1..], f)
         case AllAnswered(values, left) => AllAnswered([v] + values, left)
         case Cut(outcome) => Cut(outcome))
      case other => Cut(other)
  }

  /** The first arm one of whose tests stands; a trap where none does. */
  function EvalArms(p: Policy, w: World, k: nat, v: Value, subject: Ty, arms: seq<Arm>, f: Frame): (o: Outcome)
    ensures o.Answered? ==> o.left <= k
    decreases k, 0, arms, 0
  {
    if arms == [] then NoArm
    else if NeverEntered(arms[0], subject) then EvalArms(p, w, k, v, subject, arms[1..], f)
    else
      match Tests(v, arms[0].selects)
      case None => Stuck(Misshapen)
      case Some(false) => EvalArms(p, w, k, v, subject, arms[1..], f)
      case Some(true) =>
        match Named(v, arms[0].binding)
        case None => Stuck(Misshapen)
        case Some(bindings) => Eval(p, w, k, arms[0].body, Bind(f, bindings))
  }

  /** The values bound around a step, outermost first. */
  function EvalAround(p: Policy, w: World, k: nat, around: seq<Around>, f: Frame): (o: Framed)
    ensures o.InFrame? ==> o.left <= k
    ensures o.Broke? ==> !o.outcome.Answered?
    decreases k, 0, around, 0
  {
    if around == [] then InFrame(f, k)
    else
      assert around[0].value < around[0];
      match Eval(p, w, k, around[0].value, f)
      case Answered(v, left) => EvalAround(p, w, left, around[1..], Bind(f, map[around[0].binding := v]))
      case other => Broke(other)
  }

  /** What a walk starts from. */
  function Empty(builds: Builds): Value {
    match builds
    case BuildsList => GrowingOf([])
    case BuildsMap => MapOf([], [])
  }

  predicate IsBuiltAs(builds: Builds, v: Value) {
    match builds
    case BuildsList => v.GrowingOf?
    case BuildsMap => v.MapOf? && |v.keys| == |v.values|
  }

  /** What was built, handed over: a list being grown is a list from then on. */
  function Sealed(v: Value): Value {
    if v.GrowingOf? then Elements(v.elements) else v
  }

  /** A walk's step over the elements left to walk, handed each time what it answered the time before. */
  function Stepped(p: Policy, w: World, k: nat, builds: Builds, body: Node, f: Frame, grown: nat, each: nat,
                   acc: Value, elements: seq<Value>): (o: Outcome)
    ensures o.Answered? ==> o.left <= k
    decreases k, 0, body, 1 + |elements|
  {
    if elements == [] then Answered(Sealed(acc), k)
    else
      match Eval(p, w, k, body, Bind(f, map[grown := acc, each := elements[0]]))
      case Answered(v, left) =>
        if IsBuiltAs(builds, v) then Stepped(p, w, left, builds, body, f, grown, each, v, elements[1..])
        else Stuck(Misshapen)
      case other => other
  }

  /** The elements a walk starting at `from` walks: none where it starts outside the list. */
  function Rest(elements: seq<Value>, from: int): (r: seq<Value>)
    ensures forall v :: v in r ==> v in elements
  {
    if 0 <= from < |elements| then elements[from..] else []
  }

  /** Something added to a list being grown, and to nothing else. */
  function Grown(values: seq<Value>, k: nat): (o: Outcome)
    ensures o.Answered? ==> o.left <= k
  {
    if |values| == 2 && values[0].GrowingOf? && values[1].Elements? then
      Answered(GrowingOf(values[0].elements + values[1].elements), k)
    else Stuck(Misshapen)
  }

  /** A write into a map: over what an equal key held, the key staying as it was, or under a new key
      where there is room for one. */
  function Put(w: World, values: seq<Value>, k: nat): (o: Outcome)
    ensures o.Answered? ==> o.left <= k
  {
    if |values| == 3 && values[0].MapOf? && |values[0].keys| == |values[0].values| then
      var m := values[0];
      match w.placed(m.keys, values[1])
      case Under(place) =>
        if place < |m.keys| then Answered(MapOf(m.keys, m.values[place := values[2]]), k) else Ended
      case Fresh => Answered(MapOf(m.keys + [values[1]], m.values + [values[2]]), k)
      case NoRoom => Ended
    else Stuck(Misshapen)
  }

  /** A record of the fields, or `Ended` where there are clauses and the verdict is not `Holds`. */
  function Built(w: World, declared: string, fields: seq<Value>, k: nat): (o: Outcome)
    ensures o.Answered? ==> o.left <= k
  {
    if declared !in w.declared then Stuck(Misshapen)
    else if ClausesOf(w.declared[declared]) == [] || w.verdict(declared, fields).Holds? then
      Answered(Record(declared, fields), k)
    else Ended
  }

  function RunHelper(p: Policy, w: World, k: nat, reached: string, arguments: seq<Value>): (o: Outcome)
    ensures o.Answered? ==> o.left <= k
    decreases k, 1
  {
    if reached in w.helpers then
      Eval(p, w, k, w.helpers[reached].body, Frame(Positional(arguments), [], Unhanded))
    else Stuck(Misshapen)
  }

  /** A call of a behavior from a body: through the capability the body was handed where it requires
      the behavior, and by the behavior's symbol, with nothing handed, where it does not. */
  function RunCall(p: Policy, w: World, k: nat, declared: string, arguments: seq<Value>, f: Frame): (o: Outcome)
    ensures o.Answered? ==> o.left <= k
    decreases k, 4
  {
    match PlaceOf(f.required, declared)
    case None => RunBehavior(p, w, k, declared, [], arguments)
    case Some(at) =>
      if f.environment.Handed? && at < |f.environment.capabilities| then
        RunThrough(p, w, k, f.environment.capabilities[at], declared, arguments)
      else Stuck(Missing)
  }

  function RunThrough(p: Policy, w: World, k: nat, through: Capability, declared: string,
                      arguments: seq<Value>): (o: Outcome)
    ensures o.Answered? ==> o.left <= k
    decreases k, 3
  {
    match through
    case Hosted(id) => Within(w.hosted(k, id, declared, arguments), k)
    case Bound(behavior, stands) => RunBehavior(p, w, k, behavior, stands, arguments)
  }

  /** A behavior applied: `Stuck(Missing)` unless the capabilities are as many as its requirements. */
  function RunBehavior(p: Policy, w: World, k: nat, declared: string, capabilities: seq<Capability>,
                       arguments: seq<Value>): (o: Outcome)
    ensures o.Answered? ==> o.left <= k
    decreases k, 2
  {
    if declared !in w.targets then Stuck(Misshapen)
    else if w.targets[declared].kind.Injected? || |capabilities| != |w.targets[declared].requirements| then
      Stuck(Missing)
    else if w.targets[declared].kind.Unwritten? then Ended
    else if w.targets[declared].kind.Elsewhere? then Within(w.outside(k, declared, arguments), k)
    else if declared !in w.definitions then Stuck(Misshapen)
    else if k == 0 then Exhausted
    else RunDefinition(p, w, k - 1, w.definitions[declared], capabilities, arguments)
  }

  function RunDefinition(p: Policy, w: World, k: nat, definition: Definition, capabilities: seq<Capability>,
                         arguments: seq<Value>): (o: Outcome)
    ensures o.Answered? ==> o.left <= k
    decreases k, 8
  {
    match definition
    case BodyOf(requirements, body) =>
      Eval(p, w, k, body, Frame(Positional(arguments), requirements, Handed(capabilities)))
    case StagesOf(requirements, stages) =>
      RunComposition(p, w, k, stages, requirements, capabilities, arguments)
  }

  /** The first stage on `arguments`, and `RunStages` on its answer. */
  function RunComposition(p: Policy, w: World, k: nat, stages: seq<Stage>, requirements: seq<string>,
                          capabilities: seq<Capability>, arguments: seq<Value>): (o: Outcome)
    ensures o.Answered? ==> o.left <= k
    decreases k, 7
  {
    if stages == [] then Stuck(Misshapen)
    else
      match RunStage(p, w, k, stages[0].behavior, requirements, capabilities, arguments)
      case Answered(v, left) => RunStages(p, w, left, stages[1..], requirements, capabilities, v)
      case other => other
  }

  /** The rest of a composition on one running value, cut short at the first stage it `Leaves` before. */
  function RunStages(p: Policy, w: World, k: nat, stages: seq<Stage>, requirements: seq<string>,
                     capabilities: seq<Capability>, running: Value): (o: Outcome)
    ensures o.Answered? ==> o.left <= k
    decreases k, 6, |stages|
  {
    if stages == [] then Answered(running, k)
    else if Leaves(w, stages[0], running) then Answered(running, k)
    else
      match RunStage(p, w, k, stages[0].behavior, requirements, capabilities, [running])
      case Answered(v, left) => RunStages(p, w, left, stages[1..], requirements, capabilities, v)
      case other => other
  }

  /** What runs is not among the cases the stage accepts. */
  predicate Leaves(w: World, stage: Stage, running: Value) {
    stage.routing.OnCases? &&
    (CaseOf(running).Some? ==> CaseOf(running).value !in LeavesOf(w.declared, stage.routing.accepted))
  }

  /** One stage applied: through its own place in `capabilities` where it is injected, and with
      capabilities `Chosen` from them where it is not. */
  function RunStage(p: Policy, w: World, k: nat, behavior: string, requirements: seq<string>,
                    capabilities: seq<Capability>, arguments: seq<Value>): (o: Outcome)
    ensures o.Answered? ==> o.left <= k
    decreases k, 5
  {
    if behavior !in w.targets then Stuck(Misshapen)
    else if w.targets[behavior].kind.Injected? then
      match PlaceOf(requirements, behavior)
      case Some(at) =>
        if at < |capabilities| then RunThrough(p, w, k, capabilities[at], behavior, arguments) else Stuck(Missing)
      case None => Stuck(Missing)
    else
      match Chosen(requirements, capabilities, w.targets[behavior].requirements)
      case Some(chosen) => RunBehavior(p, w, k, behavior, chosen, arguments)
      case None => Stuck(Missing)
  }

  /** The capability among `capabilities`, which stand for `requirements`, for each of `wanted`. */
  function Chosen(requirements: seq<string>, capabilities: seq<Capability>, wanted: seq<string>): (r: Option<seq<Capability>>)
    ensures r.Some? ==> |r.value| == |wanted|
    ensures |requirements| == |capabilities| ==> (r.Some? <==> forall i :: 0 <= i < |wanted| ==> wanted[i] in requirements)
  {
    if wanted == [] then Some([])
    else
      match (PlaceOf(requirements, wanted[0]), Chosen(requirements, capabilities, wanted[1..]))
      case (Some(at), Some(rest)) => if at < |capabilities| then Some([capabilities[at]] + rest) else None
      case _ => None
  }
}
