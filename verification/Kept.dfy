/** Soundness by the sets the pass keeps: over what it lets by whose steps keep their names and whose maps
    fit, which are the names in force there (`Naming`). */
module Kept {
  import opened Options
  import opened Transport
  import opened Growing
  import opened Machine
  import opened Coherence
  import opened Typing
  import opened Soundness
  import Naming

  /** A document accepted whose steps keep their names and fit, in a world that keeps its word. */
  ghost predicate Compiled(w: World) {
    AcceptsDocument(w) && StepsKeep(w) && OutsideStands(w)
  }

  function Asked(w: World): Steps {
    Steps(Some(w.declared), true)
  }

  lemma CompiledIsStated(w: World)
    requires Compiled(w)
    ensures Stated(w)
  {
    Naming.KeepingHolds(w);
  }

  /** A node outside the answers of a step, with any set of names the pass may have come to it with. */
  lemma SoundOrdinary(w: World, k: nat, node: Node, f: Frame, required: seq<string>, scope: Scope,
                      growing: set<nat>, outside: set<nat>, named: set<nat>, around: set<nat>)
    requires Compiled(w) && Accepts(w, required, scope, node) && Ordinary(Asked(w), node, growing, outside).Some?
    requires Naming.Held(scope, growing, outside, named, around) && FrameOf(w, k, f, required, scope, named + around)
    ensures Safe(w, Eval(Lexical, w, k, node, f), node.ty)
  {
    CompiledIsStated(w);
    Naming.OrdinaryIsScoped(w, required, scope, node, Some(w.declared), growing, outside, named, around);
    Sound(w, k, node, f, required, scope, named, around);
  }

  /** And one where a step answers. */
  lemma SoundStepAnswer(w: World, k: nat, node: Node, f: Frame, required: seq<string>, scope: Scope,
                        growing: set<nat>, outside: set<nat>, named: set<nat>, around: set<nat>, element: Ty)
    requires Compiled(w) && Accepts(w, required, scope, node)
    requires Answering(Asked(w), node, growing, outside).Some? && KeepsNames(Asked(w), node, growing, outside)
    requires Naming.Held(scope, growing, outside, named, around) && Naming.Current(scope, node, growing, named)
    requires FrameOf(w, k, f, required, scope, named + around) && GrownOf(w, k, f.bindings, named, element)
    requires AllReadAs(w, node.ty, element)
    ensures SafeGrown(w, Eval(Lexical, w, k, node, f), element)
  {
    CompiledIsStated(w);
    Naming.AnsweringIsScoped(w, required, scope, node, Some(w.declared), growing, outside, named, around);
    SoundAnswering(w, k, node, f, required, scope, named, around, element);
  }

  /** And a whole run of a behavior. */
  lemma SoundRun(w: World, k: nat, declared: string, capabilities: seq<Capability>, arguments: seq<Value>)
    requires Compiled(w) && declared in w.targets && !w.targets[declared].kind.Injected?
    requires StandFor(w, capabilities, w.targets[declared].requirements)
    requires AllOf(w, k, arguments, w.targets[declared].takes)
    ensures Safe(w, RunBehavior(Lexical, w, k, declared, capabilities, arguments), w.targets[declared].answers)
  {
    CompiledIsStated(w);
    SoundBehavior(w, k, declared, capabilities, arguments);
  }
}
