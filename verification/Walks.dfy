/** What a walk answers, said of the elements walked and not of the machine's own steps: a walk that
    adds what it computes for each element answers those values in the order of the elements, from
    where it began, and a walk that writes pairs into a map answers the last value of each key. */
module Walks {
  import opened Transport
  import opened Machine
  import opened Text

  // ----- lists -----

  /** A step adding a list to the one being grown, and one adding a single value. */
  function Extending(grown: nat, added: Node, ty: Ty): Node {
    Call(GrowList, [Read(grown, ty), added], ty)
  }

  function Adding(grown: nat, item: Node, ty: Ty): Node {
    Extending(grown, ListNode([item], ty), ty)
  }

  /** The frame a round is run in: what was grown so far, and the element walked. */
  function RoundFrame(f: Frame, grown: nat, each: nat, sofar: Value, element: Value): Frame {
    Bind(f, map[grown := sofar, each := element])
  }

  /** The lists one after another. */
  function Flat(lists: seq<seq<Value>>): seq<Value> {
    if lists == [] then [] else lists[0] + Flat(lists[1..])
  }

  /** What is added comes to the list for the element, with some number of steps, after what was grown before. */
  ghost predicate ComputedFor(p: Policy, w: World, added: Node, f: Frame, grown: nat, each: nat, before: seq<Value>,
                              element: Value, list: seq<Value>) {
    exists k: nat, left: nat ::
      Eval(p, w, k, added, RoundFrame(f, grown, each, GrowingOf(before), element)) == Answered(Elements(list), left)
  }

  /** The lists are those computed for the elements, each in its place. */
  ghost predicate ComputedInOrder(p: Policy, w: World, added: Node, f: Frame, grown: nat, each: nat, before: seq<Value>,
                                  elements: seq<Value>, lists: seq<seq<Value>>) {
    |lists| == |elements|
    && forall i :: 0 <= i < |elements| ==> ComputedFor(p, w, added, f, grown, each, before + Flat(lists[..i]), elements[i], lists[i])
  }

  /** The lists come in order up to an element for which what is added comes to no list, and so to the outcome. */
  ghost predicate BrokenAt(p: Policy, w: World, added: Node, f: Frame, grown: nat, each: nat, before: seq<Value>,
                           elements: seq<Value>, lists: seq<seq<Value>>, o: Outcome) {
    && |lists| < |elements|
    && ComputedInOrder(p, w, added, f, grown, each, before, elements[..|lists|], lists)
    && exists k: nat :: NoListFor(p, w, k, added, RoundFrame(f, grown, each, GrowingOf(before + Flat(lists)), elements[|lists|]), o)
  }

  ghost predicate NoListFor(p: Policy, w: World, k: nat, added: Node, g: Frame, o: Outcome) {
    var come := Eval(p, w, k, added, g);
    if come.Answered? then !come.value.Elements? && o == Stuck(Misshapen) else o == come
  }

  /** Arguments that are all worked out are worked out as nodes in a row are. */
  lemma {:induction false} AllWorkedOut(p: Policy, w: World, k: nat, reaches: Reaches, nodes: seq<Node>, f: Frame)
    requires forall i :: 0 <= i < |nodes| ==> !NeverApplied(reaches, nodes[i])
    ensures EvalArguments(p, w, k, reaches, nodes, f) == EvalAll(p, w, k, nodes, f)
    decreases |nodes|
  {
    if nodes != [] {
      var o := Eval(p, w, k, nodes[0], f);
      if o.Answered? { AllWorkedOut(p, w, o.left, reaches, nodes[1..], f); }
    }
  }

  /** A read and then one node, as nodes in a row. */
  lemma ReadThen(p: Policy, w: World, k: nat, number: nat, ty: Ty, node: Node, f: Frame)
    requires number in f.bindings
    ensures var o := Eval(p, w, k, node, f);
      EvalAll(p, w, k, [Read(number, ty), node], f)
        == if o.Answered? then AllAnswered([f.bindings[number], o.value], o.left) else Cut(o)
  {
    var nodes := [Read(number, ty), node];
    assert nodes[1..] == [node];
    OneNode(p, w, k, node, f);
  }

  lemma OneNode(p: Policy, w: World, k: nat, node: Node, f: Frame)
    ensures var o := Eval(p, w, k, node, f);
      EvalAll(p, w, k, [node], f) == if o.Answered? then AllAnswered([o.value], o.left) else Cut(o)
  {
    var nodes := [node];
    assert nodes[1..] == [];
    var o := Eval(p, w, k, node, f);
    if o.Answered? { assert EvalAll(p, w, o.left, nodes[1..], f) == AllAnswered([], o.left); }
  }

  /** One round, and the rest of them from what it built. */
  lemma OneRound(p: Policy, w: World, k: nat, builds: Builds, body: Node, f: Frame, grown: nat, each: nat, acc: Value,
                 elements: seq<Value>, built: Value, left: nat)
    requires elements != [] && IsBuiltAs(builds, built)
    requires Eval(p, w, k, body, RoundFrame(f, grown, each, acc, elements[0])) == Answered(built, left)
    ensures Stepped(p, w, k, builds, body, f, grown, each, acc, elements)
         == Stepped(p, w, left, builds, body, f, grown, each, built, elements[1..])
  {
  }

  lemma ExtendingRuns(p: Policy, w: World, k: nat, added: Node, ty: Ty, f: Frame, grown: nat, each: nat, before: seq<Value>,
                      element: Value)
    requires grown != each && ty.List? && !NeverApplied(GrowList, added)
    ensures var g := RoundFrame(f, grown, each, GrowingOf(before), element);
      var o := Eval(p, w, k, added, g);
      Eval(p, w, k, Extending(grown, added, ty), g)
        == if !o.Answered? then o
           else if o.value.Elements? then Answered(GrowingOf(before + o.value.elements), o.left)
           else Stuck(Misshapen)
  {
    var g := RoundFrame(f, grown, each, GrowingOf(before), element);
    ReadThen(p, w, k, grown, ty, added, g);
    AllWorkedOut(p, w, k, GrowList, [Read(grown, ty), added], g);
  }

  lemma AddingRuns(p: Policy, w: World, k: nat, item: Node, ty: Ty, f: Frame, grown: nat, each: nat, before: seq<Value>,
                   element: Value)
    requires grown != each && ty.List?
    ensures var g := RoundFrame(f, grown, each, GrowingOf(before), element);
      var o := Eval(p, w, k, item, g);
      Eval(p, w, k, Adding(grown, item, ty), g) == if o.Answered? then Answered(GrowingOf(before + [o.value]), o.left) else o
  {
    OneNode(p, w, k, item, RoundFrame(f, grown, each, GrowingOf(before), element));
    ExtendingRuns(p, w, k, ListNode([item], ty), ty, f, grown, each, before, element);
  }

  lemma FlatFirst(first: seq<Value>, later: seq<seq<Value>>, i: nat)
    requires i <= |later|
    ensures Flat(([first] + later)[..i + 1]) == first + Flat(later[..i])
  {
    assert ([first] + later)[..i + 1] == [first] + later[..i];
    assert ([first] + later[..i])[1..] == later[..i];
  }

  lemma ConsInOrder(p: Policy, w: World, added: Node, f: Frame, grown: nat, each: nat, before: seq<Value>,
                    elements: seq<Value>, first: seq<Value>, later: seq<seq<Value>>)
    requires elements != [] && ComputedFor(p, w, added, f, grown, each, before, elements[0], first)
    requires ComputedInOrder(p, w, added, f, grown, each, before + first, elements[1..], later)
    ensures ComputedInOrder(p, w, added, f, grown, each, before, elements, [first] + later)
  {
    hide Eval;
    var lists, rest := [first] + later, elements[1..];
    assert before + Flat(lists[..0]) == before;
    forall i | 0 < i < |elements|
      ensures ComputedFor(p, w, added, f, grown, each, before + Flat(lists[..i]), elements[i], lists[i])
    {
      FlatFirst(first, later, i - 1);
      Assoc(before, first, Flat(later[..i - 1]));
      assert elements[i] == rest[i - 1] && lists[i] == later[i - 1];
    }
  }

  lemma ConsBroken(p: Policy, w: World, added: Node, f: Frame, grown: nat, each: nat, before: seq<Value>,
                   elements: seq<Value>, first: seq<Value>, later: seq<seq<Value>>, o: Outcome)
    requires elements != [] && ComputedFor(p, w, added, f, grown, each, before, elements[0], first)
    requires BrokenAt(p, w, added, f, grown, each, before + first, elements[1..], later, o)
    ensures BrokenAt(p, w, added, f, grown, each, before, elements, [first] + later, o)
  {
    hide Eval;
    var lists := [first] + later;
    assert elements[..|lists|][1..] == elements[1..][..|later|];
    ConsInOrder(p, w, added, f, grown, each, before, elements[..|lists|], first, later);
    FlatFirst(first, later, |later|);
    assert lists[..|lists|] == lists && later[..|later|] == later;
    Assoc(before, first, Flat(later));
    assert elements[|lists|] == elements[1..][|later|];
  }

  /** Answered with the lists computed in order, or come to what the first not computed came to. */
  ghost predicate ComesTo(p: Policy, w: World, added: Node, f: Frame, grown: nat, each: nat, before: seq<Value>,
                          elements: seq<Value>, lists: seq<seq<Value>>, o: Outcome) {
    if o.Answered? then
      o.value == Elements(before + Flat(lists)) && ComputedInOrder(p, w, added, f, grown, each, before, elements, lists)
    else BrokenAt(p, w, added, f, grown, each, before, elements, lists, o)
  }

  lemma ConsComesTo(p: Policy, w: World, added: Node, f: Frame, grown: nat, each: nat, before: seq<Value>,
                    elements: seq<Value>, first: seq<Value>, later: seq<seq<Value>>, o: Outcome)
    requires elements != [] && ComputedFor(p, w, added, f, grown, each, before, elements[0], first)
    requires ComesTo(p, w, added, f, grown, each, before + first, elements[1..], later, o)
    ensures ComesTo(p, w, added, f, grown, each, before, elements, [first] + later, o)
  {
    hide Eval;
    if o.Answered? {
      FlatFirst(first, later, |later|);
      assert ([first] + later)[..|later| + 1] == [first] + later && later[..|later|] == later;
      Assoc(before, first, Flat(later));
      ConsInOrder(p, w, added, f, grown, each, before, elements, first, later);
    } else {
      ConsBroken(p, w, added, f, grown, each, before, elements, first, later, o);
    }
  }

  lemma NoneComesTo(p: Policy, w: World, k: nat, added: Node, f: Frame, grown: nat, each: nat, before: seq<Value>,
                    elements: seq<Value>, o: Outcome)
    requires elements == [] ==> o == Answered(Elements(before), k)
    requires elements != [] ==> !o.Answered? && NoListFor(p, w, k, added, RoundFrame(f, grown, each, GrowingOf(before), elements[0]), o)
    ensures ComesTo(p, w, added, f, grown, each, before, elements, [], o)
  {
    hide Eval;
    assert before + Flat([]) == before;
    assert elements != [] ==> elements[..0] == [];
  }

  lemma {:induction false} ExtendingSteps(p: Policy, w: World, k: nat, added: Node, ty: Ty, f: Frame, grown: nat, each: nat,
                                          before: seq<Value>, elements: seq<Value>) returns (lists: seq<seq<Value>>)
    requires grown != each && ty.List? && !NeverApplied(GrowList, added)
    ensures ComesTo(p, w, added, f, grown, each, before, elements, lists,
                    Stepped(p, w, k, BuildsList, Extending(grown, added, ty), f, grown, each, GrowingOf(before), elements))
    decreases |elements|
  {
    hide Eval, ComesTo;
    lists := [];
    var body := Extending(grown, added, ty);
    var o := Stepped(p, w, k, BuildsList, body, f, grown, each, GrowingOf(before), elements);
    if elements == [] {
      NoneComesTo(p, w, k, added, f, grown, each, before, elements, o);
    } else {
      ExtendingRuns(p, w, k, added, ty, f, grown, each, before, elements[0]);
      var first := Eval(p, w, k, added, RoundFrame(f, grown, each, GrowingOf(before), elements[0]));
      if first.Answered? && first.value.Elements? {
        var list := first.value.elements;
        assert ComputedFor(p, w, added, f, grown, each, before, elements[0], list);
        var later := ExtendingSteps(p, w, first.left, added, ty, f, grown, each, before + list, elements[1..]);
        OneRound(p, w, k, BuildsList, body, f, grown, each, GrowingOf(before), elements, GrowingOf(before + list), first.left);
        ConsComesTo(p, w, added, f, grown, each, before, elements, list, later, o);
        lists := [list] + later;
      } else {
        NoneComesTo(p, w, k, added, f, grown, each, before, elements, o);
      }
    }
  }

  /** A walk whose step runs is its step over the elements from where it begins, in the frame of what is bound
      around it. */
  lemma WalkIsStepped(p: Policy, w: World, k: nat, node: Node, f: Frame, g: Frame, list: seq<Value>, from: int,
                      left: nat, spent: nat, rest: nat)
    requires node.Walk? && !NeverRuns(node.takes)
    requires EvalAround(p, w, k, node.around, f) == InFrame(g, left)
    requires Eval(p, w, left, node.walked, g) == Answered(Elements(list), spent)
    requires Eval(p, w, spent, node.from, g) == Answered(ScalarOf(Whole(from)), rest)
    ensures Eval(p, w, k, node, f)
         == Stepped(p, w, rest, node.builds, node.body, g, node.grown, node.each, Empty(node.builds), Walked(list, from))
  {
    hide Stepped;
    assert Rest(list, from) == Walked(list, from);
  }

  /** The elements from a place on: all of them, some, or none where the place is outside the list. */
  function Walked(list: seq<Value>, from: int): seq<Value> {
    if 0 <= from <= |list| then list[from..] else []
  }

  /** A walk over a list whose step adds a list each round, from where it begins to the end: where it
      answers, the answer is the lists computed for the elements walked, one after another in the order of the
      elements, and there are no others; where it does not, it comes to what the first element for which no
      list is computed comes to. */
  lemma WalkAddsInOrder(p: Policy, w: World, k: nat, node: Node, f: Frame, g: Frame, added: Node, ty: Ty,
                        list: seq<Value>, from: int, left: nat, spent: nat, rest: nat) returns (lists: seq<seq<Value>>)
    requires node.Walk? && node.builds.BuildsList? && !NeverRuns(node.takes) && node.grown != node.each
    requires ty.List? && !NeverApplied(GrowList, added) && node.body == Extending(node.grown, added, ty)
    requires EvalAround(p, w, k, node.around, f) == InFrame(g, left)
    requires Eval(p, w, left, node.walked, g) == Answered(Elements(list), spent)
    requires Eval(p, w, spent, node.from, g) == Answered(ScalarOf(Whole(from)), rest)
    ensures ComesTo(p, w, added, g, node.grown, node.each, [], Walked(list, from), lists, Eval(p, w, k, node, f))
  {
    hide Eval, Stepped, ComesTo, Walked;
    WalkIsStepped(p, w, k, node, f, g, list, from, left, spent, rest);
    lists := ExtendingSteps(p, w, rest, added, ty, g, node.grown, node.each, [], Walked(list, from));
  }

  /** Where one value is added each round, element i of the answer is the value computed for element
      `from + i`. */
  lemma WalkAddsOneEach(p: Policy, w: World, k: nat, node: Node, f: Frame, g: Frame, item: Node, ty: Ty,
                        list: seq<Value>, from: nat, left: nat, spent: nat, rest: nat)
    requires node.Walk? && node.builds.BuildsList? && !NeverRuns(node.takes) && node.grown != node.each
    requires ty.List? && node.body == Adding(node.grown, item, ty) && from <= |list|
    requires EvalAround(p, w, k, node.around, f) == InFrame(g, left)
    requires Eval(p, w, left, node.walked, g) == Answered(Elements(list), spent)
    requires Eval(p, w, spent, node.from, g) == Answered(ScalarOf(Whole(from)), rest)
    ensures var o := Eval(p, w, k, node, f);
      o.Answered? ==>
        && o.value.Elements? && |o.value.elements| == |list| - from
        && forall i: nat :: i < |list| - from ==>
             ItemFor(p, w, item, g, node.grown, node.each, o.value.elements[..i], list[from + i], o.value.elements[i])
  {
    hide Eval;
    var lists := WalkAddsInOrder(p, w, k, node, f, g, ListNode([item], ty), ty, list, from, left, spent, rest);
    var o := Eval(p, w, k, node, f);
    if o.Answered? { OnesInOrder(p, w, item, ty, g, node.grown, node.each, list[from..], lists); }
  }

  lemma OnesInOrder(p: Policy, w: World, item: Node, ty: Ty, f: Frame, grown: nat, each: nat, walked: seq<Value>,
                    lists: seq<seq<Value>>)
    requires ComputedInOrder(p, w, ListNode([item], ty), f, grown, each, [], walked, lists)
    ensures |[] + Flat(lists)| == |walked|
    ensures forall i: nat :: i < |walked| ==> ItemFor(p, w, item, f, grown, each, ([] + Flat(lists))[..i], walked[i], ([] + Flat(lists))[i])
  {
    hide Eval, ItemFor;
    forall i | 0 <= i < |walked| ensures |lists[i]| == 1 && ItemFor(p, w, item, f, grown, each, Flat(lists[..i]), walked[i], lists[i][0]) {
      assert [] + Flat(lists[..i]) == Flat(lists[..i]);
      OneComputed(p, w, item, ty, f, grown, each, Flat(lists[..i]), walked[i], lists[i]);
    }
    assert [] + Flat(lists) == Flat(lists);
    forall i: nat | i <= |walked| ensures |Flat(lists)| == |walked| && Flat(lists)[..i] == Flat(lists[..i])
      && (i < |walked| ==> Flat(lists)[i] == lists[i][0])
    {
      FlatOfOnes(lists, i);
    }
    FlatOfOnes(lists, 0);
  }

  /** The item comes to the value for the element, with some number of steps, after the values before it. */
  ghost predicate ItemFor(p: Policy, w: World, item: Node, f: Frame, grown: nat, each: nat, before: seq<Value>,
                          element: Value, value: Value) {
    exists k: nat, left: nat ::
      Eval(p, w, k, item, RoundFrame(f, grown, each, GrowingOf(before), element)) == Answered(value, left)
  }

  lemma OneComputed(p: Policy, w: World, item: Node, ty: Ty, f: Frame, grown: nat, each: nat, before: seq<Value>,
                    element: Value, list: seq<Value>)
    requires ComputedFor(p, w, ListNode([item], ty), f, grown, each, before, element, list)
    ensures |list| == 1 && ItemFor(p, w, item, f, grown, each, before, element, list[0])
  {
    var g := RoundFrame(f, grown, each, GrowingOf(before), element);
    var k: nat, left: nat :| Eval(p, w, k, ListNode([item], ty), g) == Answered(Elements(list), left);
    OneNode(p, w, k, item, g);
  }

  lemma {:induction false} FlatOfOnes(lists: seq<seq<Value>>, i: nat)
    requires i <= |lists| && forall j :: 0 <= j < |lists| ==> |lists[j]| == 1
    ensures |Flat(lists)| == |lists| && Flat(lists)[..i] == Flat(lists[..i])
    ensures i < |lists| ==> Flat(lists)[i] == lists[i][0]
    decreases |lists|
  {
    if lists != [] {
      FlatOfOnes(lists[1..], if i == 0 then 0 else i - 1);
      if i > 0 { assert lists[..i][1..] == lists[1..][..i - 1]; }
    }
  }

  /** Adding each element itself answers the elements walked, in their order: all of the list from the
      front, the rest of it from further in, and nothing from outside it. */
  lemma WalkOfItself(p: Policy, w: World, k: nat, node: Node, f: Frame, g: Frame, elementTy: Ty, ty: Ty,
                     list: seq<Value>, from: int, left: nat, spent: nat, rest: nat)
    requires node.Walk? && node.builds.BuildsList? && !NeverRuns(node.takes) && node.grown != node.each && ty.List?
    requires node.body == Adding(node.grown, Read(node.each, elementTy), ty)
    requires EvalAround(p, w, k, node.around, f) == InFrame(g, left)
    requires Eval(p, w, left, node.walked, g) == Answered(Elements(list), spent)
    requires Eval(p, w, spent, node.from, g) == Answered(ScalarOf(Whole(from)), rest)
    ensures Eval(p, w, k, node, f) == Answered(Elements(Walked(list, from)), rest)
  {
    hide Eval, Stepped, Walked;
    var walked := Walked(list, from);
    WalkIsStepped(p, w, k, node, f, g, list, from, left, spent, rest);
    AddingItself(p, w, rest, elementTy, ty, g, node.grown, node.each, [], walked);
    assert [] + walked == walked;
  }

  lemma {:induction false} AddingItself(p: Policy, w: World, k: nat, elementTy: Ty, ty: Ty, f: Frame, grown: nat, each: nat,
                                        before: seq<Value>, elements: seq<Value>)
    requires grown != each && ty.List?
    ensures Stepped(p, w, k, BuildsList, Adding(grown, Read(each, elementTy), ty), f, grown, each, GrowingOf(before), elements)
         == Answered(Elements(before + elements), k)
    decreases |elements|
  {
    if elements == [] {
      assert before + [] == before;
    } else {
      AddingRuns(p, w, k, Read(each, elementTy), ty, f, grown, each, before, elements[0]);
      AddingItself(p, w, k, elementTy, ty, f, grown, each, before + [elements[0]], elements[1..]);
      assert before + elements == before + [elements[0]] + elements[1..];
    }
  }

  /** What is bound around a step is bound before the list is worked out, outermost first: a walk under
      one more binding is that binding let around the walk. */
  lemma AroundIsLet(p: Policy, w: World, k: nat, around: Around, walk: Node, outer: Node, f: Frame)
    requires walk.Walk? && !NeverRuns(walk.takes)
    requires outer == Walk(walk.builds, [around] + walk.around, walk.grown, walk.each, walk.body, walk.takes, walk.answers,
                           walk.walked, walk.from, walk.ty)
    ensures Eval(p, w, k, outer, f) == Eval(p, w, k, Let(around.binding, around.binds, around.value, walk, walk.ty), f)
  {
    hide Stepped;
    AroundFirst(p, w, k, around, walk.around, f);
    var o := Eval(p, w, k, around.value, f);
    if o.Answered? {
      var g := Bind(f, map[around.binding := o.value]);
      assert EvalAround(p, w, k, outer.around, f) == EvalAround(p, w, o.left, walk.around, g);
    }
  }

  lemma AroundFirst(p: Policy, w: World, k: nat, first: Around, rest: seq<Around>, f: Frame)
    ensures var o := Eval(p, w, k, first.value, f);
      EvalAround(p, w, k, [first] + rest, f)
        == if o.Answered? then EvalAround(p, w, o.left, rest, Bind(f, map[first.binding := o.value])) else Broke(o)
  {
    var around := [first] + rest;
    assert around[0] == first && around[1..] == rest;
  }

  // ----- keeping some -----

  /** A step adding the element where a condition holds, and answering what was grown where it does not. */
  function Keeping(grown: nat, each: nat, cond: Node, elementTy: Ty, ty: Ty): Node {
    If(cond, Adding(grown, Read(each, elementTy), ty), Read(grown, ty), ty)
  }

  /** The elements that are told, in their order. */
  function Kept(elements: seq<Value>, tells: Value -> bool): seq<Value> {
    if elements == [] then [] else (if tells(elements[0]) then [elements[0]] else []) + Kept(elements[1..], tells)
  }

  /** Whatever was grown before it, the condition tells of the element just that. */
  ghost predicate Tells(p: Policy, w: World, cond: Node, f: Frame, grown: nat, each: nat, element: Value, told: bool) {
    forall k: nat, sofar {:trigger Eval(p, w, k, cond, RoundFrame(f, grown, each, sofar, element))} ::
      Eval(p, w, k, cond, RoundFrame(f, grown, each, sofar, element)) == Answered(ScalarOf(Truth(told)), k)
  }

  lemma KeepingRuns(p: Policy, w: World, k: nat, cond: Node, elementTy: Ty, ty: Ty, f: Frame, grown: nat, each: nat,
                    before: seq<Value>, element: Value, told: bool)
    requires grown != each && ty.List? && Tells(p, w, cond, f, grown, each, element, told)
    ensures Eval(p, w, k, Keeping(grown, each, cond, elementTy, ty), RoundFrame(f, grown, each, GrowingOf(before), element))
         == Answered(GrowingOf(before + if told then [element] else []), k)
  {
    AddingRuns(p, w, k, Read(each, elementTy), ty, f, grown, each, before, element);
    assert before + [] == before;
  }

  lemma {:induction false} KeepingSteps(p: Policy, w: World, k: nat, cond: Node, elementTy: Ty, ty: Ty, f: Frame, grown: nat,
                                        each: nat, before: seq<Value>, elements: seq<Value>, tells: Value -> bool)
    requires grown != each && ty.List?
    requires forall i :: 0 <= i < |elements| ==> Tells(p, w, cond, f, grown, each, elements[i], tells(elements[i]))
    ensures Stepped(p, w, k, BuildsList, Keeping(grown, each, cond, elementTy, ty), f, grown, each, GrowingOf(before), elements)
         == Answered(Elements(before + Kept(elements, tells)), k)
    decreases |elements|
  {
    hide Eval, Tells;
    if elements == [] {
      assert before + [] == before;
    } else {
      var first, body := if tells(elements[0]) then [elements[0]] else [], Keeping(grown, each, cond, elementTy, ty);
      KeepingRuns(p, w, k, cond, elementTy, ty, f, grown, each, before, elements[0], tells(elements[0]));
      OneRound(p, w, k, BuildsList, body, f, grown, each, GrowingOf(before), elements, GrowingOf(before + first), k);
      assert forall i :: 0 <= i < |elements| - 1 ==> elements[1..][i] == elements[i + 1];
      KeepingSteps(p, w, k, cond, elementTy, ty, f, grown, each, before + first, elements[1..], tells);
      Assoc(before, first, Kept(elements[1..], tells));
    }
  }

  /** A walk that adds the elements of which a condition holds answers those and no others, in their order. */
  lemma WalkKeeps(p: Policy, w: World, k: nat, node: Node, f: Frame, g: Frame, cond: Node, elementTy: Ty, ty: Ty,
                  list: seq<Value>, from: int, left: nat, spent: nat, rest: nat, tells: Value -> bool)
    requires node.Walk? && node.builds.BuildsList? && !NeverRuns(node.takes) && node.grown != node.each && ty.List?
    requires node.body == Keeping(node.grown, node.each, cond, elementTy, ty)
    requires forall v :: v in list ==> Tells(p, w, cond, g, node.grown, node.each, v, tells(v))
    requires EvalAround(p, w, k, node.around, f) == InFrame(g, left)
    requires Eval(p, w, left, node.walked, g) == Answered(Elements(list), spent)
    requires Eval(p, w, spent, node.from, g) == Answered(ScalarOf(Whole(from)), rest)
    ensures Eval(p, w, k, node, f) == Answered(Elements(Kept(Walked(list, from), tells)), rest)
  {
    hide Eval, Stepped, Tells;
    WalkIsStepped(p, w, k, node, f, g, list, from, left, spent, rest);
    KeepingSteps(p, w, rest, cond, elementTy, ty, g, node.grown, node.each, [], Walked(list, from), tells);
    assert [] + Kept(Walked(list, from), tells) == Kept(Walked(list, from), tells);
  }

  // ----- maps -----

  /** An equal key is found where there is one, and room or no room is made where there is none. */
  predicate PlacedByEquality(w: World, keys: seq<Value>, key: Value) {
    match w.placed(keys, key)
    case Under(place) => place < |keys| && keys[place] == key
    case Fresh => key !in keys
    case NoRoom => key !in keys
  }

  predicate Distinct(keys: seq<Value>) {
    forall i, j :: 0 <= i < j < |keys| ==> keys[i] != keys[j]
  }

  function AsMap(keys: seq<Value>, values: seq<Value>): map<Value, Value>
    requires |keys| == |values|
  {
    map key | key in keys :: values[FirstAt(keys, key)]
  }

  function FirstAt(keys: seq<Value>, key: Value): (r: nat)
    requires key in keys
    ensures r < |keys| && keys[r] == key
  {
    if keys[0] == key then 0 else 1 + FirstAt(keys[1..], key)
  }

  lemma KeyedAt(keys: seq<Value>, values: seq<Value>, at: nat)
    requires |keys| == |values| && Distinct(keys) && at < |keys|
    ensures AsMap(keys, values)[keys[at]] == values[at]
  {
  }

  lemma Replaced(keys: seq<Value>, values: seq<Value>, place: nat, value: Value)
    requires |keys| == |values| && Distinct(keys) && place < |keys|
    ensures AsMap(keys, values[place := value]) == AsMap(keys, values)[keys[place] := value]
  {
    forall at: nat | at < |keys|
      ensures AsMap(keys, values[place := value])[keys[at]] == AsMap(keys, values)[keys[place] := value][keys[at]]
    {
      KeyedAt(keys, values, at);
      KeyedAt(keys, values[place := value], at);
    }
  }

  lemma Added(keys: seq<Value>, values: seq<Value>, key: Value, value: Value)
    requires |keys| == |values| && Distinct(keys) && key !in keys
    ensures Distinct(keys + [key])
    ensures AsMap(keys + [key], values + [value]) == AsMap(keys, values)[key := value]
  {
    var more, stored := keys + [key], values + [value];
    forall at: nat | at < |more| ensures AsMap(more, stored)[more[at]] == AsMap(keys, values)[key := value][more[at]] {
      KeyedAt(more, stored, at);
      if at < |keys| { KeyedAt(keys, values, at); }
    }
    assert AsMap(more, stored).Keys == AsMap(keys, values)[key := value].Keys;
  }

  /** What a map is once the pair is put: the update, with the keys there keeping their places. */
  ghost predicate IsPut(keys: seq<Value>, values: seq<Value>, key: Value, value: Value, v: Value) {
    && v.MapOf? && |v.keys| == |v.values| && |keys| == |values| && Distinct(v.keys)
    && v.keys == (if key in keys then keys else keys + [key])
    && AsMap(v.keys, v.values) == AsMap(keys, values)[key := value]
  }

  /** A write is an update of the map the entries are: what was under an equal key is replaced, a new key
      goes after the others, and nothing else changes; without room, the run ends. */
  lemma PutIsUpdate(w: World, keys: seq<Value>, values: seq<Value>, key: Value, value: Value, k: nat)
    requires |keys| == |values| && Distinct(keys) && PlacedByEquality(w, keys, key)
    ensures var o := Put(w, [MapOf(keys, values), key, value], k);
      if w.placed(keys, key).NoRoom? then o == Ended
      else o.Answered? && o.left == k && IsPut(keys, values, key, value, o.value)
  {
    match w.placed(keys, key)
    case Under(place) => Replaced(keys, values, place, value);
    case Fresh => Added(keys, values, key, value);
    case NoRoom =>
  }

  // ----- a map built of pairs -----

  predicate ArePairs(elements: seq<Value>) {
    forall i :: 0 <= i < |elements| ==> elements[i].Members? && |elements[i].members| == 2
  }

  /** A step putting the pair walked into the map being built. */
  function Putting(grown: nat, each: nat, ty: Ty, pair: Ty, key: Ty, value: Ty): Node {
    Call(PutMap, [Read(grown, ty), Member(Read(each, pair), 0, key), Member(Read(each, pair), 1, value)], ty)
  }

  lemma PuttingRuns(p: Policy, w: World, k: nat, grown: nat, each: nat, ty: Ty, pair: Ty, key: Ty, value: Ty, f: Frame,
                    sofar: Value, element: Value)
    requires grown != each && ty.Map? && !key.Fn? && !value.Fn?
    requires element.Members? && |element.members| == 2
    ensures Eval(p, w, k, Putting(grown, each, ty, pair, key, value), RoundFrame(f, grown, each, sofar, element))
         == Put(w, [sofar, element.members[0], element.members[1]], k)
  {
    var g := RoundFrame(f, grown, each, sofar, element);
    var first, second := Member(Read(each, pair), 0, key), Member(Read(each, pair), 1, value);
    assert Eval(p, w, k, first, g) == Answered(element.members[0], k);
    assert Eval(p, w, k, second, g) == Answered(element.members[1], k);
    PuttingBoth(p, w, k, grown, ty, first, second, g, element.members[0], element.members[1]);
  }

  lemma PuttingBoth(p: Policy, w: World, k: nat, grown: nat, ty: Ty, first: Node, second: Node, g: Frame, a: Value, b: Value)
    requires grown in g.bindings && ty.Map? && !first.ty.Fn? && !second.ty.Fn?
    requires Eval(p, w, k, first, g) == Answered(a, k) && Eval(p, w, k, second, g) == Answered(b, k)
    ensures Eval(p, w, k, Call(PutMap, [Read(grown, ty), first, second], ty), g) == Put(w, [g.bindings[grown], a, b], k)
  {
    ReadThenTwo(p, w, k, grown, ty, first, second, g);
    AllWorkedOut(p, w, k, PutMap, [Read(grown, ty), first, second], g);
  }

  lemma ReadThenTwo(p: Policy, w: World, k: nat, number: nat, ty: Ty, first: Node, second: Node, f: Frame)
    requires number in f.bindings && Eval(p, w, k, first, f).Answered?
    ensures var a := Eval(p, w, k, first, f);
      var b := Eval(p, w, a.left, second, f);
      b.Answered? ==> EvalAll(p, w, k, [Read(number, ty), first, second], f) == AllAnswered([f.bindings[number], a.value, b.value], b.left)
  {
    var nodes := [Read(number, ty), first, second];
    assert nodes[1..] == [first, second];
    assert nodes[1..][1..] == [second];
    OneNode(p, w, Eval(p, w, k, first, f).left, second, f);
  }

  /** The map of the pairs, a later one over an earlier one of the same key. */
  function MapOfPairs(pairs: seq<Value>): map<Value, Value>
    requires ArePairs(pairs)
  {
    if pairs == [] then map[]
    else
      var last := |pairs| - 1;
      MapOfPairs(pairs[..last])[pairs[last].members[0] := pairs[last].members[1]]
  }

  /** The keys of the pairs, each where it first comes up. */
  function KeysOfPairs(pairs: seq<Value>): seq<Value>
    requires ArePairs(pairs)
  {
    if pairs == [] then []
    else
      var last := |pairs| - 1;
      var before := KeysOfPairs(pairs[..last]);
      if pairs[last].members[0] in before then before else before + [pairs[last].members[0]]
  }

  /** The entries are the map of the pairs, in the order of its keys. */
  ghost predicate IsMapOfPairs(v: Value, pairs: seq<Value>) {
    && v.MapOf? && |v.keys| == |v.values| && Distinct(v.keys) && ArePairs(pairs)
    && v.keys == KeysOfPairs(pairs) && AsMap(v.keys, v.values) == MapOfPairs(pairs)
  }

  lemma MapIsBuilt(v: Value, pairs: seq<Value>)
    requires IsMapOfPairs(v, pairs)
    ensures v.MapOf? && IsBuiltAs(BuildsMap, v)
  {
  }

  lemma PutIsOnePairMore(v: Value, pairs: seq<Value>, pair: Value, put: Value)
    requires IsMapOfPairs(v, pairs) && pair.Members? && |pair.members| == 2
    requires IsPut(v.keys, v.values, pair.members[0], pair.members[1], put)
    ensures IsMapOfPairs(put, pairs + [pair])
  {
    var more := pairs + [pair];
    assert more[..|pairs|] == pairs;
  }

  /** Pairs written one after another into a map, keys compared by equality and always finding room. */
  lemma {:induction false} PuttingSteps(p: Policy, w: World, k: nat, body: Node, grown: nat, each: nat, f: Frame,
                                        done: seq<Value>, built: Value, elements: seq<Value>)
    requires grown != each && PutsPairs(body, grown, each)
    requires forall keys, key :: PlacedByEquality(w, keys, key) && !w.placed(keys, key).NoRoom?
    requires IsMapOfPairs(built, done) && ArePairs(elements)
    ensures var o := Stepped(p, w, k, BuildsMap, body, f, grown, each, built, elements);
      o.Answered? && o.left == k && IsMapOfPairs(o.value, done + elements)
    decreases |elements|
  {
    hide Eval, IsMapOfPairs, PutsPairs;
    if elements == [] {
      assert done + [] == done;
      assert !built.GrowingOf? by { MapIsBuilt(built, done); }
    } else {
      MapIsBuilt(built, done);
      var put := OnePutting(p, w, k, body, grown, each, f, done, built, elements[0]);
      MapIsBuilt(put, done + [elements[0]]);
      OneRound(p, w, k, BuildsMap, body, f, grown, each, built, elements, put, k);
      PuttingSteps(p, w, k, body, grown, each, f, done + [elements[0]], put, elements[1..]);
      assert done + elements == done + [elements[0]] + elements[1..];
    }
  }

  ghost predicate PutsPairs(body: Node, grown: nat, each: nat) {
    exists ty: Ty, pair: Ty, key: Ty, value: Ty ::
      ty.Map? && !key.Fn? && !value.Fn? && body == Putting(grown, each, ty, pair, key, value)
  }

  lemma OnePutting(p: Policy, w: World, k: nat, body: Node, grown: nat, each: nat, f: Frame, done: seq<Value>, built: Value,
                   element: Value) returns (put: Value)
    requires grown != each && PutsPairs(body, grown, each) && element.Members? && |element.members| == 2
    requires forall keys, key :: PlacedByEquality(w, keys, key) && !w.placed(keys, key).NoRoom?
    requires IsMapOfPairs(built, done)
    ensures Eval(p, w, k, body, RoundFrame(f, grown, each, built, element)) == Answered(put, k)
    ensures IsMapOfPairs(put, done + [element])
  {
    var ty: Ty, pair: Ty, key: Ty, value: Ty :| ty.Map? && !key.Fn? && !value.Fn? && body == Putting(grown, each, ty, pair, key, value);
    PuttingRuns(p, w, k, grown, each, ty, pair, key, value, f, built, element);
    var at, to := element.members[0], element.members[1];
    assert PlacedByEquality(w, built.keys, at);
    PutIsUpdate(w, built.keys, built.values, at, to, k);
    put := Put(w, [MapOf(built.keys, built.values), at, to], k).value;
    PutIsOnePairMore(built, done, element, put);
  }

  lemma EmptyIsOfNone()
    ensures IsMapOfPairs(MapOf([], []), [])
  {
  }

  /** A walk putting each pair of a list into a map answers the map of the pairs walked: the last value of
      each key, with no key twice. */
  lemma WalkOfPairs(p: Policy, w: World, k: nat, node: Node, f: Frame, g: Frame, list: seq<Value>, from: int,
                    left: nat, spent: nat, rest: nat)
    requires node.Walk? && node.builds.BuildsMap? && !NeverRuns(node.takes) && node.grown != node.each
    requires PutsPairs(node.body, node.grown, node.each) && ArePairs(list)
    requires forall keys, key :: PlacedByEquality(w, keys, key) && !w.placed(keys, key).NoRoom?
    requires EvalAround(p, w, k, node.around, f) == InFrame(g, left)
    requires Eval(p, w, left, node.walked, g) == Answered(Elements(list), spent)
    requires Eval(p, w, spent, node.from, g) == Answered(ScalarOf(Whole(from)), rest)
    ensures var o := Eval(p, w, k, node, f);
      o.Answered? && o.left == rest && IsMapOfPairs(o.value, Walked(list, from))
  {
    hide Eval, Stepped, PutsPairs;
    var walked := Walked(list, from);
    WalkIsStepped(p, w, k, node, f, g, list, from, left, spent, rest);
    EmptyIsOfNone();
    PuttingSteps(p, w, rest, node.body, node.grown, node.each, g, [], MapOf([], []), walked);
    assert [] + walked == walked;
  }
}
