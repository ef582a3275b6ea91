/** What each stage of a composition is handed, over a whole run of it (`composes` in
    native/crates/compiler/src/coherent.rs, held before anything is run). */
module Compositions {
  import opened Transport
  import opened Machine
  import opened Coherence
  import opened Typing
  import opened Soundness

  /** A stage applied: which, with how many steps left, and to what. */
  datatype Application = Application(behavior: string, left: nat, arguments: seq<Value>)

  /** The stages a run from `running` applies, in the order it applies them. */
  function AppliedStages(w: World, k: nat, stages: seq<Stage>, requirements: seq<string>,
                         capabilities: seq<Capability>, running: Value): seq<Application>
    decreases |stages|
  {
    if stages == [] || Leaves(w, stages[0], running) then []
    else
      [Application(stages[0].behavior, k, [running])] +
      match RunStage(Lexical, w, k, stages[0].behavior, requirements, capabilities, [running])
      case Answered(v, left) => AppliedStages(w, left, stages[1..], requirements, capabilities, v)
      case _ => []
  }

  function AppliedBy(w: World, k: nat, stages: seq<Stage>, requirements: seq<string>,
                     capabilities: seq<Capability>, arguments: seq<Value>): seq<Application>
  {
    if stages == [] then []
    else
      [Application(stages[0].behavior, k, arguments)] +
      match RunStage(Lexical, w, k, stages[0].behavior, requirements, capabilities, arguments)
      case Answered(v, left) => AppliedStages(w, left, stages[1..], requirements, capabilities, v)
      case _ => []
  }

  ghost predicate HandedWhatItTakes(w: World, a: Application) {
    a.behavior in w.targets && AllOf(w, a.left, a.arguments, w.targets[a.behavior].takes)
  }

  ghost predicate EachHanded(w: World, applied: seq<Application>) {
    forall i :: 0 <= i < |applied| ==> HandedWhatItTakes(w, applied[i])
  }

  lemma {:induction false} StagesAreHanded(w: World, k: nat, stages: seq<Stage>, at: nat, requirements: seq<string>,
                                           capabilities: seq<Capability>, v: Value, running: Ty, answers: Ty)
    requires Stated(w) && at <= |stages| && StagesHanded(w, requirements, stages) && StandFor(w, capabilities, requirements)
    requires ComposesFrom(w, stages[at..], running, answers) && Of(w, k, v, running)
    ensures EachHanded(w, AppliedStages(w, k, stages[at..], requirements, capabilities, v))
    decreases |stages| - at
  {
    if at < |stages| && !Leaves(w, stages[at], v) {
      var behavior, rest := stages[at].behavior, stages[at + 1..];
      assert stages[at..][0] == stages[at] && stages[at..][1..] == rest;
      StageOn(w, k, stages, at, requirements, capabilities, v, running, answers);
      assert HandedWhatItTakes(w, Application(behavior, k, [v]));
      var o := RunStage(Lexical, w, k, behavior, requirements, capabilities, [v]);
      if o.Answered? {
        StagesAreHanded(w, o.left, stages, at + 1, requirements, capabilities, o.value, w.targets[behavior].answers, answers);
        assert AppliedStages(w, k, stages[at..], requirements, capabilities, v)
            == [Application(behavior, k, [v])] + AppliedStages(w, o.left, rest, requirements, capabilities, o.value);
      } else {
        assert AppliedStages(w, k, stages[at..], requirements, capabilities, v) == [Application(behavior, k, [v])];
      }
    }
  }

  /** Composition soundness over a whole trace: at each application the arguments are typed by `takes` of
      the stage applied, beginning with the arguments of the composition, and an answer at any place of
      the trace is typed by `target.answers`. */
  lemma EveryStageIsHandedWhatItTakes(w: World, k: nat, requirements: seq<string>, stages: seq<Stage>, target: Target,
                                      capabilities: seq<Capability>, arguments: seq<Value>)
    requires Stated(w) && Composes(w, target, stages) && StagesHanded(w, requirements, stages)
    requires StandFor(w, capabilities, requirements) && AllOf(w, k, arguments, target.takes)
    ensures EachHanded(w, AppliedBy(w, k, stages, requirements, capabilities, arguments))
    ensures Safe(w, RunComposition(Lexical, w, k, stages, requirements, capabilities, arguments), target.answers)
  {
    SoundComposition(w, k, requirements, stages, target, capabilities, arguments);
    SoundStage(w, k, stages, 0, requirements, capabilities, arguments);
    assert HandedWhatItTakes(w, Application(stages[0].behavior, k, arguments));
    var o := RunStage(Lexical, w, k, stages[0].behavior, requirements, capabilities, arguments);
    if o.Answered? {
      StagesAreHanded(w, o.left, stages, 1, requirements, capabilities, o.value,
                      w.targets[stages[0].behavior].answers, target.answers);
    }
  }

  // ----- the trace is the run -----

  /** What an application comes to. */
  function Come(w: World, requirements: seq<string>, capabilities: seq<Capability>, a: Application): Outcome {
    RunStage(Lexical, w, a.left, a.behavior, requirements, capabilities, a.arguments)
  }

  /** The one is applied to what the other answered, with what it left. */
  predicate Follows(w: World, requirements: seq<string>, capabilities: seq<Capability>, a: Application, b: Application) {
    var o := Come(w, requirements, capabilities, a);
    o.Answered? && b.left == o.left && b.arguments == [o.value]
  }

  /** Applications of the stages in their order, each to what the one before answered where that does not leave
      there, up to one that answers nothing, or leaves, or is the last, whose outcome is the run's. */
  predicate IsTrace(w: World, requirements: seq<string>, capabilities: seq<Capability>, stages: seq<Stage>,
                    applied: seq<Application>, o: Outcome) {
    && 0 < |applied| <= |stages|
    && (forall i :: 0 <= i < |applied| ==> applied[i].behavior == stages[i].behavior)
    && (forall i :: 0 < i < |applied| ==> Onward(w, requirements, capabilities, stages, applied, i))
    && o == Come(w, requirements, capabilities, applied[|applied| - 1])
    && (o.Answered? ==> |applied| == |stages| || Leaves(w, stages[|applied|], o.value))
  }

  predicate Onward(w: World, requirements: seq<string>, capabilities: seq<Capability>, stages: seq<Stage>,
                   applied: seq<Application>, i: nat)
    requires 0 < i < |applied| && i < |stages|
  {
    && Follows(w, requirements, capabilities, applied[i - 1], applied[i])
    && applied[i].arguments != [] && !Leaves(w, stages[i], applied[i].arguments[0])
  }

  /** The stages a run applies are its trace: it begins with the first on what the composition is handed, and
      comes to what the trace comes to. */
  lemma {:induction false} TraceIsTheRun(w: World, k: nat, requirements: seq<string>, stages: seq<Stage>,
                                         capabilities: seq<Capability>, arguments: seq<Value>)
    requires stages != []
    ensures var applied := AppliedBy(w, k, stages, requirements, capabilities, arguments);
      && IsTrace(w, requirements, capabilities, stages, applied,
                 RunComposition(Lexical, w, k, stages, requirements, capabilities, arguments))
      && applied[0] == Application(stages[0].behavior, k, arguments)
    decreases |stages|
  {
    hide RunStage;
    var first := Application(stages[0].behavior, k, arguments);
    var come, rest := Come(w, requirements, capabilities, first), stages[1..];
    if come.Answered? && rest != [] && !Leaves(w, rest[0], come.value) {
      TraceIsTheRun(w, come.left, requirements, rest, capabilities, [come.value]);
      var later := AppliedBy(w, come.left, rest, requirements, capabilities, [come.value]);
      var o := RunComposition(Lexical, w, come.left, rest, requirements, capabilities, [come.value]);
      assert AppliedStages(w, come.left, rest, requirements, capabilities, come.value) == later;
      assert RunStages(Lexical, w, come.left, rest, requirements, capabilities, come.value) == o;
      TraceFrom(w, requirements, capabilities, stages, first, later, o);
    } else if come.Answered? {
      assert AppliedStages(w, come.left, rest, requirements, capabilities, come.value) == [];
    }
  }

  lemma TraceFrom(w: World, requirements: seq<string>, capabilities: seq<Capability>, stages: seq<Stage>,
                  first: Application, later: seq<Application>, o: Outcome)
    requires |stages| > 1 && first.behavior == stages[0].behavior
    requires IsTrace(w, requirements, capabilities, stages[1..], later, o)
    requires Follows(w, requirements, capabilities, first, later[0])
    requires later[0].arguments != [] && !Leaves(w, stages[1], later[0].arguments[0])
    ensures IsTrace(w, requirements, capabilities, stages, [first] + later, o)
  {
    hide RunStage, Leaves;
    var applied, rest := [first] + later, stages[1..];
    assert forall i :: 0 < i < |stages| ==> stages[i] == rest[i - 1];
    forall i | 0 < i < |applied| ensures Onward(w, requirements, capabilities, stages, applied, i) {
      if i > 1 { assert Onward(w, requirements, capabilities, rest, later, i - 1); }
    }
  }
}
