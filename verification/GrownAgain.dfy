/** Documents that show the names of a step have to be kept. A list's step that binds the number of a
    closed `let` again, for a list of its own, and answers by it: the pass lets it by because the number
    was a name of the list once, and what the walk goes on with is no list being grown
    (`confined` in native/crates/compiler/src/growing.rs, `walk_built` in native/crates/compiler/src/lib.rs).

    The behavior takes a truth and the list walked. Its step goes one way on the truth, naming its list 4
    and answering by 4, and binds `second` to an empty list on the other. */
module GrownAgain {
  import opened Options
  import opened Transport
  import opened Declarations
  import opened Growing
  import opened Machine
  import opened Coherence
  import opened Typing
  import opened Soundness

  const NAME := "m.f"
  const COUNT: Ty := Prim(IntPrim)
  const COUNTS: Ty := List(COUNT)

  /** What the other way does with its list: answers it, or answers it grown. */
  datatype Wrong = AnswersIt | GrowsIt

  function Leaf(wrong: Wrong, second: nat): Node {
    match wrong
    case AnswersIt => Read(second, COUNTS)
    case GrowsIt => Call(GrowList, [Read(second, COUNTS), ListNode([Read(3, COUNT)], COUNTS)], COUNTS)
  }

  function Own(): Node {
    Let(4, COUNTS, Read(2, COUNTS), Read(4, COUNTS), COUNTS)
  }

  function Other(wrong: Wrong, second: nat): Node {
    Let(second, COUNTS, ListNode([], COUNTS), Leaf(wrong, second), COUNTS)
  }

  function Step(wrong: Wrong, second: nat): Node {
    If(Read(0, TRUTH), Own(), Other(wrong, second), COUNTS)
  }

  function Takes(): seq<Ty> {
    [TRUTH, COUNTS]
  }

  function Body(wrong: Wrong, second: nat): Node {
    Walk(BuildsList, [], 2, 3, Step(wrong, second), [COUNTS, COUNT], COUNTS, Read(1, COUNTS), Literal(Whole(0), COUNT), COUNTS)
  }

  function Document(wrong: Wrong, second: nat): World {
    World(map[], map[NAME := Target(Takes(), COUNTS, ByBody, [])], map[NAME := BodyOf([], Body(wrong, second))], map[],
          (declared, fields) => Holds, (keys, key) => Fresh, (kernel, settled, answers) => false,
          (k, kernel, arguments) => Ended, (k, declared, arguments) => Ended, (k, id, declared, arguments) => Ended)
  }

  // ----- what the pass does with it -----

  /** The other way is let by exactly where it binds the number of the first again. */
  lemma OtherPasses(steps: Steps, wrong: Wrong, second: nat)
    requires second >= 4
    ensures Answering(steps, Other(wrong, second), {2, 4}, {}) == if second == 4 then Some({2, 4}) else None
  {
    var own: set<nat> := {2, 4};
    assert Ordinary(steps, ListNode([], COUNTS), own, {}) == Some(own);
    if wrong.GrowsIt? {
      var added := ListNode([Read(3, COUNT)], COUNTS);
      assert Children(added) == [Read(3, COUNT)] && Ordinary(steps, Children(added)[0], own, {}) == Some(own);
      assert OrdinaryFrom(steps, added, 1, own, {}) == Some(own);
      assert Ordinary(steps, added, own, {}) == Some(own);
    }
  }

  lemma StepPasses(steps: Steps, wrong: Wrong, second: nat)
    requires second >= 4
    ensures Answering(steps, Step(wrong, second), {2}, {}) == if second == 4 then Some({2, 4}) else None
  {
    var named: set<nat> := {2};
    assert named + {4} == {2, 4};
    assert Ordinary(steps, Read(0, TRUTH), named, {}) == Some(named);
    assert Answering(steps, Own(), named, {}) == Some({2, 4});
    OtherPasses(steps, wrong, second);
  }

  lemma PassesWhereAgain(wrong: Wrong, second: nat)
    requires second >= 4
    ensures Confined(Body(wrong, second)) <==> second == 4
  {
    var none: set<nat> := {};
    var node := Body(wrong, second);
    StepPasses(PASS, wrong, second);
    assert none + none == none && OrdinaryAround(PASS, node, 0, none, none) == Some(none);
    assert OrdinaryWalked(PASS, node, none, none) == if second == 4 then Some(none) else None;
    assert Ordinary(PASS, node.walked, none, none) == Some(none) && Ordinary(PASS, node.from, none, none) == Some(none);
  }

  /** The step does not keep its names, and an answer of it is of no name in force. */
  lemma LosesAName(wrong: Wrong)
    ensures !KeepsNames(PASS, Step(wrong, 4), {2}, {})
    ensures !StepsHold(Document(wrong, 4)) && !StepsKeep(Document(wrong, 4))
  {
    OtherLoses(PASS, wrong);
    WalkLoses(Some(Document(wrong, 4).declared), wrong);
    WalkIsNotScoped(Some(Document(wrong, 4).declared), wrong);
    assert Document(wrong, 4).definitions[NAME] == BodyOf([], Body(wrong, 4));
  }

  lemma WalkLoses(maps: Option<Declared>, wrong: Wrong)
    ensures Ordinary(Steps(maps, true), Body(wrong, 4), {}, {}) == None
  {
    var none: set<nat> := {};
    var steps, node := Steps(maps, true), Body(wrong, 4);
    OtherLoses(steps, wrong);
    assert none + none == none && OrdinaryAround(steps, node, 0, none, none) == Some(none);
    assert !NeverRuns(node.takes) && OrdinaryWalked(steps, node, none, none) == None;
  }

  lemma WalkIsNotScoped(maps: Option<Declared>, wrong: Wrong)
    ensures !Scoped(maps, Body(wrong, 4), {}, {})
  {
    var named, none: set<nat> := {2}, {};
    assert none + none == none && !NeverRuns([COUNTS, COUNT]);
    assert !ScopedAnswer(maps, Leaf(wrong, 4), named, none);
    LetIsNotScoped(maps, Other(wrong, 4), named, none);
    ForkIsNotScoped(maps, Step(wrong, 4), named, none);
  }

  lemma LetIsNotScoped(maps: Option<Declared>, node: Node, named: set<nat>, outside: set<nat>)
    requires node.Let? && !NamesTheGrown(node.value, named) && !ScopedAnswer(maps, node.body, named, outside)
    ensures !ScopedAnswer(maps, node, named, outside)
  {
  }

  lemma ForkIsNotScoped(maps: Option<Declared>, node: Node, named: set<nat>, outside: set<nat>)
    requires node.If? && !ScopedAnswer(maps, node.no, named, outside)
    ensures !ScopedAnswer(maps, node, named, outside)
  {
  }

  lemma OtherLoses(steps: Steps, wrong: Wrong)
    ensures !KeepsNames(steps, Step(wrong, 4), {2}, {})
  {
    var own: set<nat> := {2, 4};
    assert Ordinary(steps, ListNode([], COUNTS), own, {}) == Some(own);
    assert !KeepsNames(steps, Other(wrong, 4), own, {});
    StepPasses(steps, wrong, 4);
    assert {2} + {4} == own;
    assert Answering(steps, Own(), {2}, {}) == Some(own);
    assert Ordinary(steps, Read(0, TRUTH), {2}, {}) == Some({2});
  }

  // ----- and the checker -----

  const OUTER: Scope := map[0 := TRUTH, 1 := COUNTS]

  /** In force where the step is written. */
  predicate InStep(scope: Scope) {
    && 0 in scope && scope[0] == TRUTH && 2 in scope && scope[2] == COUNTS && 3 in scope && scope[3] == COUNT
  }

  lemma LeafIsAccepted(w: World, scope: Scope, wrong: Wrong, second: nat)
    requires second in scope && scope[second] == COUNTS && 3 in scope && scope[3] == COUNT
    ensures Accepts(w, [], scope, Leaf(wrong, second))
  {
    assert Accepts(w, [], scope, Read(second, COUNTS)) && Accepts(w, [], scope, Read(3, COUNT));
    assert Accepts(w, [], scope, ListNode([Read(3, COUNT)], COUNTS));
  }

  lemma OtherIsAccepted(w: World, scope: Scope, wrong: Wrong, second: nat)
    requires InStep(scope) && second !in scope
    ensures Accepts(w, [], scope, Other(wrong, second))
  {
    LeafIsAccepted(w, scope[second := COUNTS], wrong, second);
    assert Accepts(w, [], scope, ListNode([], COUNTS));
  }

  lemma OwnIsAccepted(w: World, scope: Scope)
    requires InStep(scope) && 4 !in scope
    ensures Accepts(w, [], scope, Own())
  {
    assert Accepts(w, [], scope, Read(2, COUNTS)) && Accepts(w, [], scope[4 := COUNTS], Read(4, COUNTS));
  }

  lemma StepIsAccepted(w: World, scope: Scope, wrong: Wrong, second: nat)
    requires InStep(scope) && 4 !in scope && second !in scope
    ensures Accepts(w, [], scope, Step(wrong, second))
  {
    OtherIsAccepted(w, scope, wrong, second);
    OwnIsAccepted(w, scope);
    assert Accepts(w, [], scope, Read(0, TRUTH));
  }

  lemma BodyIsAccepted(w: World, wrong: Wrong, second: nat)
    requires second >= 4
    ensures Accepts(w, [], PositionalTypes(Takes()), Body(wrong, second))
  {
    assert PositionalTypes(Takes()) == OUTER;
    StepIsAccepted(w, OUTER[2 := COUNTS][3 := COUNT], wrong, second);
    assert Accepts(w, [], OUTER, Read(1, COUNTS)) && Accepts(w, [], OUTER, Literal(Whole(0), COUNT));
    PlainWalkStands(w, [], OUTER, Body(wrong, second));
  }

  /** It is accepted exactly where the number is bound again. */
  lemma AcceptedWhereAgain(wrong: Wrong, second: nat)
    requires second >= 4
    ensures AcceptsDocument(Document(wrong, second)) <==> second == 4
  {
    var w := Document(wrong, second);
    PassesWhereAgain(wrong, second);
    BodyIsAccepted(w, wrong, second);
    OneDefinition(w, NAME, Takes(), COUNTS, Body(wrong, second));
  }

  /** What is outside it keeps its word. */
  lemma OutsideKept(wrong: Wrong, second: nat)
    ensures OutsideStands(Document(wrong, second))
  {
    var w := Document(wrong, second);
    assert forall declared, values :: VerdictKeeps(w, declared, values);
    assert forall k, kernel, settled, answers, arguments :: KernelKeeps(w, k, kernel, settled, answers, arguments);
    assert forall k, declared, arguments :: OutsideKeeps(w, k, declared, arguments);
    assert forall k, id, declared, arguments :: HostKeeps(w, k, id, declared, arguments);
  }

  // ----- what running it comes to -----

  function Counted(elements: seq<int>): (r: seq<Value>)
    ensures |r| == |elements|
  {
    seq(|elements|, i requires 0 <= i < |elements| => ScalarOf(Whole(elements[i])))
  }

  function Arguments(way: bool, elements: seq<int>): seq<Value> {
    [ScalarOf(Truth(way)), Elements(Counted(elements))]
  }

  lemma ArgumentsAreTyped(w: World, k: nat, way: bool, elements: seq<int>)
    ensures AllOf(w, k, Arguments(way, elements), Takes())
  {
    var list := Elements(Counted(elements));
    forall i | 0 <= i < |list.elements| ensures Of(w, k, list.elements[i], COUNT) { }
    assert Of(w, k, ScalarOf(Truth(way)), TRUTH) && Of(w, k, list, COUNTS);
  }

  /** The first way answers the list being grown; the other answers none, or can grow none. */
  lemma StepComesTo(w: World, wrong: Wrong, k: nat, f: Frame, way: bool)
    requires 0 in f.bindings && f.bindings[0] == ScalarOf(Truth(way))
    requires 2 in f.bindings && f.bindings[2] == GrowingOf([]) && 3 in f.bindings
    ensures Eval(Lexical, w, k, Step(wrong, 4), f) ==
      if way then Answered(GrowingOf([]), k) else if wrong.AnswersIt? then Answered(Elements([]), k) else Stuck(Misshapen)
  {
    assert Eval(Lexical, w, k, Read(0, TRUTH), f) == Answered(ScalarOf(Truth(way)), k);
    if way {
      var g := Bind(f, map[4 := GrowingOf([])]);
      assert Eval(Lexical, w, k, Read(4, COUNTS), g) == Answered(GrowingOf([]), k);
      assert Eval(Lexical, w, k, Own(), f) == Answered(GrowingOf([]), k);
    } else {
      OtherComesTo(w, wrong, k, f);
    }
  }

  lemma OtherComesTo(w: World, wrong: Wrong, k: nat, f: Frame)
    requires 3 in f.bindings
    ensures Eval(Lexical, w, k, Other(wrong, 4), f) == if wrong.AnswersIt? then Answered(Elements([]), k) else Stuck(Misshapen)
  {
    var g := Bind(f, map[4 := Elements([])]);
    assert EvalAll(Lexical, w, k, [], f) == AllAnswered([], k);
    assert Eval(Lexical, w, k, ListNode([], COUNTS), f) == Answered(Elements([]), k);
    assert Eval(Lexical, w, k, Read(4, COUNTS), g) == Answered(Elements([]), k);
    if wrong.GrowsIt? { GrowthIsStuck(w, k, g); }
  }

  lemma GrowthIsStuck(w: World, k: nat, g: Frame)
    requires 3 in g.bindings && 4 in g.bindings && g.bindings[4] == Elements([])
    ensures Eval(Lexical, w, k, Leaf(GrowsIt, 4), g) == Stuck(Misshapen)
  {
    var leaf := Leaf(GrowsIt, 4);
    var read, added := leaf.arguments[0], leaf.arguments[1];
    assert leaf.arguments[1..] == [added] && [added][1..] == [] && [Read(3, COUNT)][1..] == [];
    assert EvalAll(Lexical, w, k, [], g) == AllAnswered([], k);
    assert EvalAll(Lexical, w, k, [Read(3, COUNT)], g) == AllAnswered([g.bindings[3]], k);
    assert Eval(Lexical, w, k, added, g) == Answered(Elements([g.bindings[3]]), k);
    GrowingTwo(w, k, leaf, g, Elements([]), Elements([g.bindings[3]]));
  }

  lemma GrowingTwo(w: World, k: nat, node: Node, g: Frame, a: Value, b: Value)
    requires node.Call? && node.reaches.GrowList? && |node.arguments| == 2
    requires !NeverApplied(node.reaches, node.arguments[0]) && !NeverApplied(node.reaches, node.arguments[1])
    requires Eval(Lexical, w, k, node.arguments[0], g) == Answered(a, k)
    requires Eval(Lexical, w, k, node.arguments[1], g) == Answered(b, k)
    ensures Eval(Lexical, w, k, node, g) == Grown([a, b], k)
  {
    var second := node.arguments[1..];
    assert second == [node.arguments[1]] && second[1..] == [];
    assert EvalArguments(Lexical, w, k, node.reaches, [], g) == AllAnswered([], k);
    assert EvalArguments(Lexical, w, k, node.reaches, second, g) == AllAnswered([b], k);
    assert EvalArguments(Lexical, w, k, node.reaches, node.arguments, g) == AllAnswered([a, b], k);
  }

  lemma {:induction false} RoundsComeTo(w: World, wrong: Wrong, k: nat, f: Frame, way: bool, rest: seq<Value>)
    requires 0 in f.bindings && f.bindings[0] == ScalarOf(Truth(way))
    ensures Stepped(Lexical, w, k, BuildsList, Step(wrong, 4), f, 2, 3, GrowingOf([]), rest) ==
      if way || rest == [] then Answered(Elements([]), k) else Stuck(Misshapen)
    decreases |rest|
  {
    if rest != [] {
      StepComesTo(w, wrong, k, Bind(f, map[2 := GrowingOf([]), 3 := rest[0]]), way);
      RoundsComeTo(w, wrong, k, f, way, rest[1..]);
    }
  }

  lemma BodyComesTo(w: World, wrong: Wrong, k: nat, f: Frame, way: bool, list: seq<Value>)
    requires 0 in f.bindings && f.bindings[0] == ScalarOf(Truth(way))
    requires 1 in f.bindings && f.bindings[1] == Elements(list)
    ensures Eval(Lexical, w, k, Body(wrong, 4), f) == if way || list == [] then Answered(Elements([]), k) else Stuck(Misshapen)
  {
    var node := Body(wrong, 4);
    assert !NeverRuns(node.takes);
    assert EvalAround(Lexical, w, k, node.around, f) == InFrame(f, k);
    assert Eval(Lexical, w, k, node.walked, f) == Answered(Elements(list), k);
    assert Eval(Lexical, w, k, node.from, f) == Answered(ScalarOf(Whole(0)), k);
    assert Rest(list, 0) == list;
    RoundsComeTo(w, wrong, k, f, way, list);
  }

  lemma RunComesTo(wrong: Wrong, k: nat, way: bool, elements: seq<int>)
    requires k > 0
    ensures RunBehavior(Lexical, Document(wrong, 4), k, NAME, [], Arguments(way, elements)) ==
      if way || elements == [] then Answered(Elements([]), k - 1) else Stuck(Misshapen)
  {
    var w, arguments := Document(wrong, 4), Arguments(way, elements);
    var f := Frame(Positional(arguments), [], Handed([]));
    BodyComesTo(w, wrong, k - 1, f, way, Counted(elements));
    assert RunBehavior(Lexical, w, k, NAME, [], arguments) == RunDefinition(Lexical, w, k - 1, BodyOf([], Body(wrong, 4)), [], arguments);
  }

  /** One accepted document, handed what it takes: it is stuck exactly where an element is walked the way
      that binds the number again. It does not keep its names, and binding any other number there it would
      not have been accepted. */
  lemma AcceptedAndStuck(wrong: Wrong, k: nat, way: bool, elements: seq<int>)
    requires k > 0
    ensures AcceptsDocument(Document(wrong, 4)) && OutsideStands(Document(wrong, 4)) && !StepsKeep(Document(wrong, 4))
    ensures AllOf(Document(wrong, 4), k, Arguments(way, elements), Takes())
    ensures RunBehavior(Lexical, Document(wrong, 4), k, NAME, [], Arguments(way, elements)).Stuck? <==> !way && elements != []
    ensures forall second :: second > 4 ==> !AcceptsDocument(Document(wrong, second))
  {
    AcceptedWhereAgain(wrong, 4);
    OutsideKept(wrong, 4);
    LosesAName(wrong);
    ArgumentsAreTyped(Document(wrong, 4), k, way, elements);
    RunComesTo(wrong, k, way, elements);
    forall second | second > 4 ensures !AcceptsDocument(Document(wrong, second)) { AcceptedWhereAgain(wrong, second); }
  }
}
