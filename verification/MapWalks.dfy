/** A family of accepted documents that shows what `Coherence.StepsHold` asks of maps is needed: `Accepts`
    does not relate `takes[0]` of a map's step with `answers` (native/crates/compiler/src/coherent.rs,
    `BUILD_MAP`), and the pass does not keep the step from reading its accumulator as it does for a list.

    Each document is given by a way a node can tell a type by (`Telling`), a value (`Sample`) and the
    integers walked. Its step has `takes[0]` a map to the type told and `answers` a map to the type of the
    value, and tells what `map.get` finds in its accumulator. */
module MapWalks {
  import opened Options
  import opened Transport
  import opened Declarations
  import opened Growing
  import opened Machine
  import opened Coherence
  import opened Typing
  import opened Soundness

  const NAME := "m.f"
  const TEXT: Ty := Prim(StringPrim)
  const COUNT: Ty := Prim(IntPrim)
  const KEY: Node := Literal(Text("k"), TEXT)

  // ----- the two kernels -----

  function PlaceOfKey(keys: seq<Value>, key: Value): (r: Option<nat>)
    ensures r.Some? ==> r.value < |keys| && keys[r.value] == key
  {
    if keys == [] then None
    else if keys[0] == key then Some(0)
    else
      match PlaceOfKey(keys[1..], key)
      case Some(at) => Some(at + 1)
      case None => None
  }

  /** `map.get` and `map.singleton`, as far as this document calls them. */
  function Kernels(k: nat, kernel: string, arguments: seq<Value>): Outcome {
    if |arguments| != 2 then Ended
    else if kernel == "map.singleton" then Answered(MapOf([arguments[0]], [arguments[1]]), k)
    else if kernel == "map.get" && arguments[1].MapOf? then
      match PlaceOfKey(arguments[1].keys, arguments[0])
      case Some(at) =>
        if at < |arguments[1].values| then Answered(PresentOf(arguments[1].values[at]), k) else Ended
      case None => Answered(AbsentOf, k)
    else Ended
  }

  predicate Settles(kernel: string, settled: seq<Ty>, answers: Ty) {
    && |settled| == 2
    && ((kernel == "map.singleton" && answers == Map(settled[0], settled[1]))
        || (kernel == "map.get" && settled[1].Map? && settled[0] == settled[1].key
            && answers == Optional(settled[1].value)))
  }

  // ----- the types told, and the values given -----

  /** By which branch is taken, by a test of presence, by walking, by reading a member, or by a test of the
      case. */
  datatype Telling =
    | ByTruth
    | ByPresence(held: Ty)
    | ByWalking(element: Ty)
    | ByMember(first: Ty, rest: seq<Ty>)
    | ByCase(prims: seq<Prim>)

  function CasesIn(prims: seq<Prim>): (r: seq<Case>)
    ensures |r| == |prims| && forall i :: 0 <= i < |r| ==> r[i] == Primitive(prims[i])
  {
    seq(|prims|, i requires 0 <= i < |prims| => Primitive(prims[i]))
  }

  function Told(way: Telling): Ty {
    match way
    case ByTruth => TRUTH
    case ByPresence(held) => Optional(held)
    case ByWalking(element) => List(element)
    case ByMember(first, rest) => Tuple([first] + rest)
    case ByCase(prims) => Union(CasesIn(prims))
  }

  datatype Sample = OfScalar(scalar: Scalar) | OfNothingHeld(held: Ty) | OfNoElements(element: Ty) | OfNoMembers

  function Given(sample: Sample): Ty {
    match sample
    case OfScalar(scalar) => Prim(PrimOf(scalar))
    case OfNothingHeld(held) => Optional(held)
    case OfNoElements(element) => List(element)
    case OfNoMembers => Tuple([])
  }

  function Written(sample: Sample): Node {
    match sample
    case OfScalar(scalar) => Literal(scalar, Given(sample))
    case OfNothingHeld(_) => AbsentNode(Given(sample))
    case OfNoElements(_) => ListNode([], Given(sample))
    case OfNoMembers => TupleNode([], Given(sample))
  }

  function Held(sample: Sample): Value {
    match sample
    case OfScalar(scalar) => ScalarOf(scalar)
    case OfNothingHeld(_) => AbsentOf
    case OfNoElements(_) => Elements([])
    case OfNoMembers => Members([])
  }

  /** Whether the value can be told that way. A walk of no elements there can be tells nothing. */
  predicate Tells(way: Telling, sample: Sample) {
    match way
    case ByTruth => sample.OfScalar? && sample.scalar.Truth?
    case ByPresence(_) => sample.OfNothingHeld?
    case ByWalking(element) => sample.OfNoElements? || element == Nothing
    case ByMember(_, _) => false
    case ByCase(_) => sample.OfScalar?
  }

  // ----- the document -----

  function One(sample: Sample): Node {
    Call(Kernel("map.singleton", [TEXT, Given(sample)]), [KEY, Written(sample)], Map(TEXT, Given(sample)))
  }

  function Got(way: Telling): Node {
    Call(Kernel("map.get", [TEXT, Map(TEXT, Told(way))]), [KEY, Read(0, Map(TEXT, Told(way)))], Optional(Told(way)))
  }

  function Walked(element: Ty): Node {
    Walk(BuildsList, [], 3, 4, Read(3, List(element)), [List(element), element], List(element),
         Read(2, List(element)), Literal(Whole(0), COUNT), List(element))
  }

  /** What is under number 2 told, and a map of the value answered whatever it was. */
  function Teller(way: Telling, sample: Sample): Node {
    var one, read, ty := One(sample), Read(2, Told(way)), Map(TEXT, Given(sample));
    match way
    case ByTruth => If(read, one, one, ty)
    case ByPresence(_) => Match(read, [Arm([Selects.Held], NoName, one), Arm([Absence], NoName, one)], ty)
    case ByWalking(element) => Let(5, List(element), Walked(element), one, ty)
    case ByMember(first, _) => Let(5, first, Member(read, 0, first), one, ty)
    case ByCase(prims) => Match(read, [Arm([Which(CasesIn(prims))], NoName, one)], ty)
  }

  function Step(way: Telling, sample: Sample): Node {
    Match(Got(way), [Arm([Selects.Held], Payload(2, Told(way)), Teller(way, sample)), Arm([Absence], NoName, One(sample))],
          Map(TEXT, Given(sample)))
  }

  function Counts(elements: seq<int>): (nodes: seq<Node>)
    ensures |nodes| == |elements|
    ensures forall i :: 0 <= i < |nodes| ==> nodes[i] == Literal(Whole(elements[i]), COUNT)
  {
    seq(|elements|, i requires 0 <= i < |elements| => Literal(Whole(elements[i]), COUNT))
  }

  function Takes(way: Telling): seq<Ty> {
    [Map(TEXT, Told(way)), COUNT]
  }

  function Body(way: Telling, sample: Sample, elements: seq<int>): Node {
    Walk(BuildsMap, [], 0, 1, Step(way, sample), Takes(way), Map(TEXT, Given(sample)),
         ListNode(Counts(elements), List(COUNT)), Literal(Whole(0), COUNT), Map(TEXT, Given(sample)))
  }

  function Document(way: Telling, sample: Sample, elements: seq<int>): World {
    World(map[], map[NAME := Target([], Map(TEXT, Given(sample)), ByBody, [])],
          map[NAME := BodyOf([], Body(way, sample, elements))], map[],
          (declared, fields) => Holds, (keys, key) => Fresh, Settles, Kernels,
          (k, declared, arguments) => Ended, (k, id, declared, arguments) => Ended)
  }

  // ----- it is accepted, and what it reaches outside itself keeps its word -----

  lemma KernelsKeep(w: World, k: nat, kernel: string, settled: seq<Ty>, answers: Ty, arguments: seq<Value>)
    requires w.settles == Settles && w.kernel == Kernels
    ensures KernelKeeps(w, k, kernel, settled, answers, arguments)
  {
    if Settles(kernel, settled, answers) && AllOf(w, k, arguments, settled) {
      assert Of(w, k, arguments[0], settled[0]) && Of(w, k, arguments[1], settled[1]);
    }
  }

  lemma OneIsAccepted(w: World, scope: Scope, sample: Sample)
    requires w.settles == Settles
    ensures Accepts(w, [], scope, One(sample))
  {
    assert Accepts(w, [], scope, KEY) && Accepts(w, [], scope, Written(sample));
  }

  lemma GotIsAccepted(w: World, scope: Scope, way: Telling)
    requires w.settles == Settles && 0 in scope && scope[0] == Map(TEXT, Told(way))
    ensures Accepts(w, [], scope, Got(way))
  {
    assert Accepts(w, [], scope, KEY) && Accepts(w, [], scope, Read(0, Map(TEXT, Told(way))));
  }

  lemma WalkedIsAccepted(w: World, scope: Scope, element: Ty)
    requires 2 in scope && scope[2] == List(element) && 3 !in scope && 4 !in scope
    ensures Accepts(w, [], scope, Walked(element))
  {
    assert Accepts(w, [], scope[3 := List(element)][4 := element], Read(3, List(element)));
    assert Accepts(w, [], scope, Read(2, List(element))) && Accepts(w, [], scope, Literal(Whole(0), COUNT));
    PlainWalkStands(w, [], scope, Walked(element));
  }

  lemma ForkIsAccepted(w: World, scope: Scope, node: Node)
    requires node.If? && Accepts(w, [], scope, node.cond) && node.cond.ty == TRUTH
    requires Accepts(w, [], scope, node.yes) && node.yes.ty == node.ty && Accepts(w, [], scope, node.no) && node.no.ty == node.ty
    ensures Accepts(w, [], scope, node)
  {
  }

  lemma LetIsAccepted(w: World, scope: Scope, node: Node)
    requires node.Let? && Accepts(w, [], scope, node.value) && node.value.ty == node.binds && node.binding !in scope
    requires Accepts(w, [], scope[node.binding := node.binds], node.body) && node.body.ty == node.ty
    ensures Accepts(w, [], scope, node)
  {
  }

  /** A match on what is under a number, whose arms have no name. */
  lemma TestIsAccepted(w: World, scope: Scope, node: Node)
    requires node.Match? && Accepts(w, [], scope, node.subject)
    requires forall i :: 0 <= i < |node.arms| ==>
      && node.arms[i].binding == NoName && node.arms[i].selects != [] && TestsStand(w.declared, node.subject.ty, node.arms[i].selects)
      && node.arms[i].body.ty == node.ty && Accepts(w, [], scope, node.arms[i].body)
    ensures Accepts(w, [], scope, node)
  {
    forall i | 0 <= i < |node.arms| ensures AcceptsArm(w, [], scope, node.subject.ty, node.arms[i], node.ty) {
      assert ArmScope(scope, node.arms[i].binding) == Some(scope);
    }
  }

  lemma TellerIsAccepted(w: World, scope: Scope, way: Telling, sample: Sample)
    requires w.settles == Settles && 2 in scope && scope[2] == Told(way) && 3 !in scope && 4 !in scope && 5 !in scope
    ensures Accepts(w, [], scope, Teller(way, sample))
  {
    var node := Teller(way, sample);
    OneIsAccepted(w, scope, sample);
    assert Accepts(w, [], scope, Read(2, Told(way)));
    match way
    case ByTruth => ForkIsAccepted(w, scope, node);
    case ByPresence(_) => TestIsAccepted(w, scope, node);
    case ByWalking(element) =>
      WalkedIsAccepted(w, scope, element);
      OneIsAccepted(w, scope[5 := List(element)], sample);
      LetIsAccepted(w, scope, node);
    case ByMember(first, _) =>
      assert Accepts(w, [], scope, Member(Read(2, Told(way)), 0, first));
      OneIsAccepted(w, scope[5 := first], sample);
      LetIsAccepted(w, scope, node);
    case ByCase(prims) =>
      CasesStand(w.declared, prims);
      TestIsAccepted(w, scope, node);
  }

  lemma CasesStand(d: Declared, prims: seq<Prim>)
    ensures TestsStand(d, Union(CasesIn(prims)), [Which(CasesIn(prims))])
  {
    assert Fits(d, Union(CasesIn(prims)), Union(CasesIn(prims)));
  }

  lemma StepIsAccepted(w: World, scope: Scope, way: Telling, sample: Sample)
    requires w.settles == Settles && 0 in scope && scope[0] == Map(TEXT, Told(way))
    requires 2 !in scope && 3 !in scope && 4 !in scope && 5 !in scope
    ensures Accepts(w, [], scope, Step(way, sample))
  {
    GotIsAccepted(w, scope, way);
    TellerIsAccepted(w, scope[2 := Told(way)], way, sample);
    OneIsAccepted(w, scope, sample);
    PresenceIsAccepted(w, scope, Got(way), Told(way), Teller(way, sample), One(sample), Map(TEXT, Given(sample)));
  }

  /** What an optional holds bound under number 2 where it holds something. */
  lemma PresenceIsAccepted(w: World, scope: Scope, got: Node, told: Ty, teller: Node, one: Node, ty: Ty)
    requires Accepts(w, [], scope, got) && got.ty == Optional(told) && 2 !in scope
    requires Accepts(w, [], scope[2 := told], teller) && teller.ty == ty && Accepts(w, [], scope, one) && one.ty == ty
    ensures Accepts(w, [], scope, Match(got, [Arm([Selects.Held], Payload(2, told), teller), Arm([Absence], NoName, one)], ty))
  {
    var arms := [Arm([Selects.Held], Payload(2, told), teller), Arm([Absence], NoName, one)];
    assert ArmScope(scope, Payload(2, told)) == Some(scope[2 := told]) && ArmScope(scope, NoName) == Some(scope);
    forall i | 0 <= i < |arms| ensures AcceptsArm(w, [], scope, got.ty, arms[i], ty) { }
  }

  lemma CountsAreAccepted(w: World, elements: seq<int>)
    ensures Accepts(w, [], map[], ListNode(Counts(elements), List(COUNT)))
  {
    forall i | 0 <= i < |Counts(elements)| ensures Accepts(w, [], map[], Counts(elements)[i]) { }
  }

  lemma WalkIsAccepted(w: World, way: Telling, sample: Sample, elements: seq<int>)
    requires w.settles == Settles
    ensures Accepts(w, [], map[], Body(way, sample, elements))
  {
    var none: Scope := map[];
    StepIsAccepted(w, none[0 := Map(TEXT, Told(way))][1 := COUNT], way, sample);
    CountsAreAccepted(w, elements);
    assert Accepts(w, [], none, Literal(Whole(0), COUNT));
    PlainWalkStands(w, [], none, Body(way, sample, elements));
  }

  // ----- the pass, and the names in force -----

  /** No name of a list is met in any of it, and no list is grown but by the walk that tells. */
  lemma OneIsPlain(steps: Steps, sample: Sample)
    ensures Ordinary(steps, One(sample), {}, {}) == Some({}) && Scoped(steps.maps, One(sample), {}, {})
  {
    var c := Children(One(sample));
    assert c == [KEY, Written(sample)];
    assert Children(Written(sample)) == [] && Children(KEY) == [];
    assert Ordinary(steps, c[0], {}, {}) == Some({}) && Ordinary(steps, c[1], {}, {}) == Some({});
    assert OrdinaryFrom(steps, One(sample), 2, {}, {}) == Some({}) && OrdinaryFrom(steps, One(sample), 1, {}, {}) == Some({});
    assert Scoped(steps.maps, KEY, {}, {}) && Scoped(steps.maps, Written(sample), {}, {});
  }

  lemma ReadIsPlain(steps: Steps, binding: nat, ty: Ty)
    ensures Ordinary(steps, Read(binding, ty), {}, {}) == Some({}) && Scoped(steps.maps, Read(binding, ty), {}, {})
  {
  }

  /** A node none of whose children is other than plain. */
  lemma {:induction false} ChildrenArePlain(steps: Steps, node: Node, at: nat)
    requires at <= |Children(node)|
    requires forall i :: at <= i < |Children(node)| ==> Ordinary(steps, Children(node)[i], {}, {}) == Some({})
    ensures OrdinaryFrom(steps, node, at, {}, {}) == Some({})
    decreases |Children(node)| - at
  {
    if at < |Children(node)| { ChildrenArePlain(steps, node, at + 1); }
  }

  lemma NodeIsPlain(steps: Steps, node: Node)
    requires !node.Read? && !node.Walk? && !(node.Call? && node.reaches.GrowList?)
    requires forall i :: 0 <= i < |Children(node)| ==> Ordinary(steps, Children(node)[i], {}, {}) == Some({})
    ensures Ordinary(steps, node, {}, {}) == Some({})
  {
    ChildrenArePlain(steps, node, 0);
  }

  lemma WalkedIsPlain(steps: Steps, element: Ty)
    ensures Ordinary(steps, Walked(element), {}, {}) == Some({}) && Scoped(steps.maps, Walked(element), {}, {})
  {
    var none: set<nat> := {};
    var node := Walked(element);
    assert none + none == none;
    assert OrdinaryAround(steps, node, 0, none, none) == Some(none);
    assert Answering(steps, node.body, {3}, none).Some? && KeepsNames(steps, node.body, {3}, none);
    assert OrdinaryWalked(steps, node, none, none) == Some(none);
    assert Children(node.from) == [] && Ordinary(steps, node.from, none, none) == Some(none);
    assert ScopedAnswer(steps.maps, node.body, {3}, none);
  }

  lemma TellerPasses(steps: Steps, way: Telling, sample: Sample)
    ensures Ordinary(steps, Teller(way, sample), {}, {}) == Some({})
  {
    var node := Teller(way, sample);
    OneIsPlain(steps, sample);
    if way.ByWalking? { WalkedIsPlain(steps, way.element); }
    if way.ByMember? {
      assert Children(node.value) == [Read(2, Told(way))];
      NodeIsPlain(steps, node.value);
    }
    NodeIsPlain(steps, node);
  }

  lemma TellerIsScoped(maps: Option<Declared>, way: Telling, sample: Sample)
    ensures Scoped(maps, Teller(way, sample), {}, {})
  {
    OneIsPlain(Steps(maps, false), sample);
    if way.ByWalking? { WalkedIsPlain(Steps(maps, false), way.element); }
    ReadIsPlain(Steps(maps, false), 2, Told(way));
  }

  lemma StepIsPlain(steps: Steps, way: Telling, sample: Sample)
    ensures Ordinary(steps, Step(way, sample), {}, {}) == Some({}) && Scoped(steps.maps, Step(way, sample), {}, {})
  {
    var node, got := Step(way, sample), Got(way);
    OneIsPlain(steps, sample);
    TellerPasses(steps, way, sample);
    TellerIsScoped(steps.maps, way, sample);
    assert Children(got) == [KEY, Read(0, Map(TEXT, Told(way)))] && Children(KEY) == [];
    assert Ordinary(steps, KEY, {}, {}) == Some({});
    NodeIsPlain(steps, got);
    assert Children(node) == [got, Teller(way, sample), One(sample)];
    NodeIsPlain(steps, node);
    GotIsScoped(steps.maps, way);
  }

  lemma GotIsScoped(maps: Option<Declared>, way: Telling)
    ensures Scoped(maps, Got(way), {}, {})
  {
    assert Scoped(maps, KEY, {}, {}) && Scoped(maps, Read(0, Map(TEXT, Told(way))), {}, {});
  }

  /** The pass lets the body by, and asked of maps besides, where what the step answers fits. */
  lemma BodyPasses(steps: Steps, way: Telling, sample: Sample, elements: seq<int>)
    ensures Ordinary(steps, Body(way, sample, elements), {}, {}).Some? <==> StepHeld(steps.maps, Takes(way), Map(TEXT, Given(sample)))
  {
    var node := Body(way, sample, elements);
    StepIsPlain(steps, way, sample);
    CountsArePlain(steps, elements);
    assert OrdinaryStep(steps, node, 0, {}, {}) == Some({});
  }

  lemma CountsArePlain(steps: Steps, elements: seq<int>)
    ensures var list := ListNode(Counts(elements), List(COUNT));
      Ordinary(steps, list, {}, {}) == Some({}) && Scoped(steps.maps, list, {}, {})
    ensures Ordinary(steps, Literal(Whole(0), COUNT), {}, {}) == Some({}) && Scoped(steps.maps, Literal(Whole(0), COUNT), {}, {})
  {
    var list, nought := ListNode(Counts(elements), List(COUNT)), Literal(Whole(0), COUNT);
    forall i | 0 <= i < |Counts(elements)|
      ensures Ordinary(steps, Counts(elements)[i], {}, {}) == Some({}) && Scoped(steps.maps, Counts(elements)[i], {}, {})
    {
      assert Children(Counts(elements)[i]) == [];
    }
    assert Children(list) == Counts(elements) && Children(nought) == [];
    NodeIsPlain(steps, list);
  }

  lemma BodyIsScoped(maps: Option<Declared>, way: Telling, sample: Sample, elements: seq<int>)
    ensures Scoped(maps, Body(way, sample, elements), {}, {}) <==> StepHeld(maps, Takes(way), Map(TEXT, Given(sample)))
  {
    var node := Body(way, sample, elements);
    StepIsPlain(Steps(maps, false), way, sample);
    CountsArePlain(Steps(maps, false), elements);
    assert ScopedStep(maps, node, 0, {}, {});
    assert !NeverRuns(Takes(way));
  }

  /** The document is accepted, and what is outside it keeps its word. */
  lemma IsAccepted(way: Telling, sample: Sample, elements: seq<int>)
    ensures AcceptsDocument(Document(way, sample, elements)) && OutsideStands(Document(way, sample, elements))
  {
    var w, none := Document(way, sample, elements), map[];
    WalkIsAccepted(w, way, sample, elements);
    BodyPasses(PASS, way, sample, elements);
    assert PositionalTypes([]) == none;
    OneDefinition(w, NAME, [], Map(TEXT, Given(sample)), Body(way, sample, elements));
    WordIsKept(w);
  }

  lemma WordIsKept(w: World)
    requires w.settles == Settles && w.kernel == Kernels && (forall declared, values :: w.verdict(declared, values) == Holds)
    requires forall k, declared, arguments :: w.outside(k, declared, arguments) == Ended
    requires forall k, id, declared, arguments :: w.hosted(k, id, declared, arguments) == Ended
    ensures OutsideStands(w)
  {
    forall k: nat, kernel, settled, answers, arguments ensures KernelKeeps(w, k, kernel, settled, answers, arguments) {
      KernelsKeep(w, k, kernel, settled, answers, arguments);
    }
    assert forall declared, values :: VerdictKeeps(w, declared, values);
    assert forall k, declared, arguments :: OutsideKeeps(w, k, declared, arguments);
    assert forall k, id, declared, arguments :: HostKeeps(w, k, id, declared, arguments);
  }

  /** Its steps hold exactly where what the walk answers fits what its step takes. */
  lemma HoldsWhereItFits(way: Telling, sample: Sample, elements: seq<int>)
    ensures StepsHold(Document(way, sample, elements)) <==> Fits(map[], Map(TEXT, Given(sample)), Map(TEXT, Told(way)))
  {
    var w := Document(way, sample, elements);
    BodyIsScoped(Some(w.declared), way, sample, elements);
    assert w.definitions[NAME] == BodyOf([], Body(way, sample, elements));
    assert !NeverRuns(Takes(way)) && Takes(way)[0] == Map(TEXT, Told(way));
  }

  // ----- what running it comes to -----

  function Single(sample: Sample): Value {
    MapOf([ScalarOf(Text("k"))], [Held(sample)])
  }

  /** A kernel handed two values that are there to be read. */
  lemma TwoArguments(w: World, k: nat, node: Node, f: Frame, a: Value, b: Value)
    requires node.Call? && node.reaches.Kernel? && |node.arguments| == 2
    requires Eval(Lexical, w, k, node.arguments[0], f) == Answered(a, k)
    requires Eval(Lexical, w, k, node.arguments[1], f) == Answered(b, k)
    ensures Eval(Lexical, w, k, node, f) == Within(w.kernel(k, node.reaches.kernel, [a, b]), k)
  {
    var second := node.arguments[1..];
    assert second == [node.arguments[1]] && second[1..] == [];
    assert EvalArguments(Lexical, w, k, node.reaches, [], f) == AllAnswered([], k);
    assert EvalArguments(Lexical, w, k, node.reaches, second, f) == AllAnswered([b], k);
    assert EvalArguments(Lexical, w, k, node.reaches, node.arguments, f) == AllAnswered([a, b], k);
  }

  lemma OneComesTo(w: World, k: nat, sample: Sample, f: Frame)
    requires w.kernel == Kernels
    ensures Eval(Lexical, w, k, One(sample), f) == Answered(Single(sample), k)
  {
    assert EvalAll(Lexical, w, k, [], f) == AllAnswered([], k);
    assert Eval(Lexical, w, k, Written(sample), f) == Answered(Held(sample), k);
    TwoArguments(w, k, One(sample), f, ScalarOf(Text("k")), Held(sample));
  }

  /** What telling the value comes to. */
  function ToldAs(way: Telling, sample: Sample, k: nat): Outcome {
    if !Tells(way, sample) then Stuck(Misshapen)
    else if way.ByCase? && Primitive(PrimOf(sample.scalar)) !in CasesIn(way.prims) then NoArm
    else Answered(Single(sample), k)
  }

  lemma WalkedComesTo(w: World, k: nat, element: Ty, sample: Sample, g: Frame)
    requires 2 in g.bindings && g.bindings[2] == Held(sample)
    ensures Eval(Lexical, w, k, Walked(element), g) ==
      if sample.OfNoElements? || element == Nothing then Answered(Elements([]), k) else Stuck(Misshapen)
  {
    var node := Walked(element);
    assert Eval(Lexical, w, k, node.walked, g) == Answered(Held(sample), k);
    assert Eval(Lexical, w, k, node.from, g) == Answered(ScalarOf(Whole(0)), k);
    assert EvalAround(Lexical, w, k, node.around, g) == InFrame(g, k);
    assert NeverRuns(node.takes) <==> element == Nothing by { assert node.takes[1] == element; }
  }

  lemma TellerComesTo(w: World, k: nat, way: Telling, sample: Sample, g: Frame)
    requires w.kernel == Kernels && 2 in g.bindings && g.bindings[2] == Held(sample)
    ensures Eval(Lexical, w, k, Teller(way, sample), g) == ToldAs(way, sample, k)
  {
    match way
    case ByTruth => OneComesTo(w, k, sample, g);
    case ByPresence(_) => PresenceComesTo(w, k, way, sample, g);
    case ByWalking(element) =>
      WalkedComesTo(w, k, element, sample, g);
      OneComesTo(w, k, sample, Bind(g, map[5 := Elements([])]));
    case ByMember(first, _) => MemberIsStuck(w, k, way, sample, g);
    case ByCase(_) => CaseComesTo(w, k, way, sample, g);
  }

  lemma MemberIsStuck(w: World, k: nat, way: Telling, sample: Sample, g: Frame)
    requires way.ByMember? && 2 in g.bindings && g.bindings[2] == Held(sample)
    ensures Eval(Lexical, w, k, Teller(way, sample), g) == Stuck(Misshapen)
  {
    assert Eval(Lexical, w, k, Read(2, Told(way)), g) == Answered(Held(sample), k);
    assert Eval(Lexical, w, k, Member(Read(2, Told(way)), 0, way.first), g) == Stuck(Misshapen);
  }

  lemma PresenceComesTo(w: World, k: nat, way: Telling, sample: Sample, g: Frame)
    requires way.ByPresence? && w.kernel == Kernels && 2 in g.bindings && g.bindings[2] == Held(sample)
    ensures Eval(Lexical, w, k, Teller(way, sample), g) == ToldAs(way, sample, k)
  {
    var node, v := Teller(way, sample), Held(sample);
    assert node.arms[1..] == [node.arms[1]] && node.arms[0].selects[1..] == [] && node.arms[1].selects[1..] == [];
    OneComesTo(w, k, sample, Bind(g, map[]));
    assert Eval(Lexical, w, k, node.subject, g) == Answered(v, k);
    assert Tests(v, node.arms[0].selects) == if v.AbsentOf? then Some(false) else None;
    assert Tests(v, node.arms[1].selects) == if v.AbsentOf? then Some(true) else None;
    assert !NeverEntered(node.arms[1], node.subject.ty) by { assert node.arms[1].selects[0] == Absence; }
    assert EvalArms(Lexical, w, k, v, node.subject.ty, node.arms[1..], g) == ToldAs(way, sample, k);
  }

  /** A match of one arm that makes one test and has no name. */
  lemma OneArm(w: World, k: nat, v: Value, subject: Ty, arms: seq<Arm>, f: Frame)
    requires |arms| == 1 && |arms[0].selects| == 1 && arms[0].selects[0].Which? && arms[0].binding == NoName
    ensures EvalArms(Lexical, w, k, v, subject, arms, f) ==
      match Test(v, arms[0].selects[0])
      case None => Stuck(Misshapen)
      case Some(stands) => if stands then Eval(Lexical, w, k, arms[0].body, Bind(f, map[])) else NoArm
  {
    assert arms[1..] == [] && arms[0].selects[1..] == [] && Tests(v, []) == Some(false);
    assert !NeverEntered(arms[0], subject);
  }

  lemma CaseComesTo(w: World, k: nat, way: Telling, sample: Sample, g: Frame)
    requires way.ByCase? && w.kernel == Kernels && 2 in g.bindings && g.bindings[2] == Held(sample)
    ensures Eval(Lexical, w, k, Teller(way, sample), g) == ToldAs(way, sample, k)
  {
    var node, v := Teller(way, sample), Held(sample);
    OneComesTo(w, k, sample, Bind(g, map[]));
    OneArm(w, k, v, node.subject.ty, node.arms, g);
    assert Eval(Lexical, w, k, node.subject, g) == Answered(v, k);
    assert CaseOf(v) == if sample.OfScalar? then Some(Primitive(PrimOf(sample.scalar))) else None;
  }

  /** The first round reads nothing out of the empty map; each round after it tells the value. */
  lemma StepComesTo(w: World, way: Telling, sample: Sample, k: nat, f: Frame)
    requires w.kernel == Kernels
    requires 0 in f.bindings && (f.bindings[0] == Empty(BuildsMap) || f.bindings[0] == Single(sample))
    ensures Eval(Lexical, w, k, Step(way, sample), f)
         == if f.bindings[0] == Empty(BuildsMap) then Answered(Single(sample), k) else ToldAs(way, sample, k)
  {
    var acc, got := f.bindings[0], Got(way);
    var key := ScalarOf(Text("k"));
    assert Eval(Lexical, w, k, got.arguments[0], f) == Answered(key, k);
    assert Eval(Lexical, w, k, got.arguments[1], f) == Answered(acc, k);
    TwoArguments(w, k, got, f, key, acc);
    var v := if acc == Empty(BuildsMap) then AbsentOf else PresentOf(Held(sample));
    assert Eval(Lexical, w, k, got, f) == Answered(v, k);
    ArmsComeTo(w, way, sample, k, f, v);
  }

  lemma ArmsComeTo(w: World, way: Telling, sample: Sample, k: nat, f: Frame, v: Value)
    requires w.kernel == Kernels && (v == AbsentOf || v == PresentOf(Held(sample)))
    ensures EvalArms(Lexical, w, k, v, Optional(Told(way)), Step(way, sample).arms, f)
         == if v.AbsentOf? then Answered(Single(sample), k) else ToldAs(way, sample, k)
  {
    var arms := Step(way, sample).arms;
    assert arms[0].selects[1..] == [] && arms[1].selects[1..] == [] && arms[1..] == [arms[1]];
    assert Tests(v, arms[0].selects) == Some(v.PresentOf?) && Tests(v, arms[1].selects) == Some(v.AbsentOf?);
    if v.AbsentOf? {
      OneComesTo(w, k, sample, Bind(f, map[]));
    } else {
      TellerComesTo(w, k, way, sample, Bind(f, map[2 := v.value]));
    }
  }

  /** The rounds left, from what was built so far. */
  lemma {:induction false} RoundsComeTo(w: World, way: Telling, sample: Sample, k: nat, f: Frame, acc: Value, rest: seq<Value>)
    requires w.kernel == Kernels && (acc == Empty(BuildsMap) || acc == Single(sample))
    ensures Stepped(Lexical, w, k, BuildsMap, Step(way, sample), f, 0, 1, acc, rest)
         == if rest == [] then Answered(acc, k)
            else if acc == Empty(BuildsMap) && |rest| == 1 then Answered(Single(sample), k)
            else ToldAs(way, sample, k)
    decreases |rest|
  {
    if rest != [] {
      StepComesTo(w, way, sample, k, Bind(f, map[0 := acc, 1 := rest[0]]));
      RoundsComeTo(w, way, sample, k, f, Single(sample), rest[1..]);
    }
  }

  lemma {:induction false} CountsComeTo(w: World, k: nat, elements: seq<int>, f: Frame)
    ensures EvalAll(Lexical, w, k, Counts(elements), f).AllAnswered?
    ensures EvalAll(Lexical, w, k, Counts(elements), f).left == k
    decreases |elements|
  {
    if elements != [] {
      assert Counts(elements)[1..] == Counts(elements[1..]);
      CountsComeTo(w, k, elements[1..], f);
    }
  }

  /** A walk of a list from its front, nothing bound around its step. */
  lemma WalkRuns(w: World, k: nat, node: Node, f: Frame, values: seq<Value>)
    requires node.Walk? && node.around == [] && !NeverRuns(node.takes)
    requires Eval(Lexical, w, k, node.walked, f) == Answered(Elements(values), k)
    requires Eval(Lexical, w, k, node.from, f) == Answered(ScalarOf(Whole(0)), k)
    ensures Eval(Lexical, w, k, node, f)
         == Stepped(Lexical, w, k, node.builds, node.body, f, node.grown, node.each, Empty(node.builds), values)
  {
    assert EvalAround(Lexical, w, k, node.around, f) == InFrame(f, k);
    assert Rest(values, 0) == values;
  }

  lemma BodyComesTo(w: World, way: Telling, sample: Sample, elements: seq<int>, k: nat, f: Frame)
    requires w.kernel == Kernels
    ensures Eval(Lexical, w, k, Body(way, sample, elements), f)
         == if elements == [] then Answered(Empty(BuildsMap), k)
            else if |elements| == 1 then Answered(Single(sample), k)
            else ToldAs(way, sample, k)
  {
    CountsComeTo(w, k, elements, f);
    var values := EvalAll(Lexical, w, k, Counts(elements), f).values;
    assert !NeverRuns(Takes(way));
    WalkRuns(w, k, Body(way, sample, elements), f, values);
    RoundsComeTo(w, way, sample, k, f, Empty(BuildsMap), values);
  }

  lemma RunComesTo(way: Telling, sample: Sample, elements: seq<int>, k: nat)
    requires k > 0
    ensures RunBehavior(Lexical, Document(way, sample, elements), k, NAME, [], [])
         == if elements == [] then Answered(Empty(BuildsMap), k - 1)
            else if |elements| == 1 then Answered(Single(sample), k - 1)
            else ToldAs(way, sample, k - 1)
  {
    var w, f, node := Document(way, sample, elements), Frame(Positional([]), [], Handed([])), Body(way, sample, elements);
    BodyComesTo(w, way, sample, elements, k - 1, f);
    assert RunBehavior(Lexical, w, k, NAME, [], []) == RunDefinition(Lexical, w, k - 1, BodyOf([], node), [], []);
  }

  /** Whatever the step's first argument is told way: the document is accepted, and it is stuck exactly where
      two elements are walked or more and the value is none that can be told that way. Then what the walk
      answers does not fit what its step takes, and where it fits the value can be told. */
  lemma AcceptedAndStuck(way: Telling, sample: Sample, elements: seq<int>, k: nat)
    requires k > 0
    ensures AcceptsDocument(Document(way, sample, elements)) && OutsideStands(Document(way, sample, elements))
    ensures RunBehavior(Lexical, Document(way, sample, elements), k, NAME, [], []).Stuck? <==> |elements| >= 2 && !Tells(way, sample)
    ensures !Tells(way, sample) ==> !Fits(map[], Given(sample), Told(way)) && !StepsHold(Document(way, sample, elements))
    ensures way.ByTruth? ==> (StepsHold(Document(way, sample, elements)) <==> Tells(way, sample))
  {
    IsAccepted(way, sample, elements);
    RunComesTo(way, sample, elements, k);
    HoldsWhereItFits(way, sample, elements);
    FitsWhereTold(way, sample);
  }

  lemma FitsWhereTold(way: Telling, sample: Sample)
    ensures Fits(map[], Map(TEXT, Given(sample)), Map(TEXT, Told(way))) <==> Fits(map[], Given(sample), Told(way))
    ensures Fits(map[], Given(sample), Told(way)) ==> Tells(way, sample)
    ensures way.ByTruth? && Tells(way, sample) ==> Fits(map[], Given(sample), Told(way))
  {
    assert FitsToward(map[], TEXT, TEXT, true);
    MapsFit(map[], Given(sample), Told(way));
    if sample.OfScalar? && way.ByTruth? {
      assert CasesOf(map[], Given(sample)) == Some([Primitive(PrimOf(sample.scalar))]) && CasesOf(map[], TRUTH) == Some([Primitive(BoolPrim)]);
      assert Primitive(PrimOf(sample.scalar)) in [Primitive(PrimOf(sample.scalar))];
    }
  }

  lemma MapsFit(d: Declared, a: Ty, b: Ty)
    ensures Fits(d, Map(TEXT, a), Map(TEXT, b)) <==> Fits(d, a, b)
  {
    assert FitsToward(d, Map(TEXT, a), Map(TEXT, b), true) <==> FitsToward(d, a, b, true) by {
      assert FitsToward(d, TEXT, TEXT, true) && FitsToward(d, a, a, true);
    }
  }
}
