/** Which runtime a bound behavior may be called in (`Bound::new`, `Bound::requirements` in
    bindings/rust/runtime/src/bound.rs; `Capability.of`, `Requirements` in
    bindings/go/runtime/capability.go): the one settles it once, where the behavior is bound, and the
    other walks everything it stands on at each call. */
module Capabilities {
  import opened Options

  /** A capability as the tree of those bound under it: its maker, whether its run is live where it is
      asked, and a subtree a requirement, so that a host's implementation is a leaf. */
  datatype Tree = Tree(runtime: nat, live: bool, standing: seq<Tree>)

  // ----- settled once -----

  /** The runtime written at every place of the tree, or `None` where two places differ. */
  function Made(t: Tree): Option<nat> {
    if AllMade(t.standing, t.runtime) then Some(t.runtime) else None
  }

  predicate AllMade(standing: seq<Tree>, runtime: nat) {
    forall i :: 0 <= i < |standing| ==> Made(standing[i]) == Some(runtime)
  }

  class Bound {
    const made: Option<nat>
    ghost const tree: Tree

    ghost predicate Valid() {
      made == Made(tree)
    }

    /** The verdict is read off the verdicts of what it is bound to, and none of it is walked again. */
    constructor (runtime: nat, live: bool, required: seq<Bound>)
      requires forall i :: 0 <= i < |required| ==> required[i].Valid()
      ensures Valid() && tree == Tree(runtime, live, seq(|required|, i requires 0 <= i < |required| => required[i].tree))
    {
      ghost var trees := seq(|required|, i requires 0 <= i < |required| => required[i].tree);
      var all := true;
      for i := 0 to |required|
        invariant all <==> forall j :: 0 <= j < i ==> required[j].made == Some(runtime)
      {
        if required[i].made != Some(runtime) { all := false; }
      }
      assert AllMade(trees, runtime) <==> forall j :: 0 <= j < |required| ==> required[j].made == Some(runtime) by {
        assert forall j :: 0 <= j < |required| ==> Made(trees[j]) == required[j].made;
      }
      made := if all then Some(runtime) else None;
      tree := Tree(runtime, live, trees);
    }

    method Requirements(runtime: nat) returns (ok: bool)
      requires Valid()
      ensures ok <==> MadeThroughout(tree, runtime)
    {
      MadeIsThroughout(tree, runtime);
      ok := made == Some(runtime);
    }
  }

  // ----- walked at each call -----

  datatype Verdict = Accepted | Foreign | Misused

  function Of(t: Tree, runtime: nat): Verdict {
    if t.runtime != runtime then Foreign else OfAll(t.standing, runtime)
  }

  function OfAll(standing: seq<Tree>, runtime: nat): Verdict {
    if standing == [] then Accepted
    else if !standing[0].live then Misused
    else
      match Of(standing[0], runtime)
      case Accepted => OfAll(standing[1..], runtime)
      case refused => refused
  }

  /** The walk as it is carried out, stopping at the first that is not of the runtime. */
  method Walk(t: Tree, runtime: nat) returns (v: Verdict)
    ensures v == Of(t, runtime)
  {
    if t.runtime != runtime { return Foreign; }
    for i := 0 to |t.standing|
      invariant Of(t, runtime) == OfAll(t.standing[i..], runtime)
    {
      var required := t.standing[i];
      assert t.standing[i..][0] == required && t.standing[i..][1..] == t.standing[i + 1..];
      if !required.live { return Misused; }
      var one := Walk(required, runtime);
      if one != Accepted { return one; }
    }
    return Accepted;
  }

  /** `Requirements`: whether its own run is live is asked first, and then the walk. */
  method RequirementsWalked(t: Tree, runtime: nat) returns (v: Verdict)
    ensures v == FirstRefusal([Live(t.live)] + Checks(t), runtime)
    ensures v == Accepted <==> t.live && MadeThroughout(t, runtime) && LiveThroughout(t)
  {
    OfIsFirstRefusal(t, runtime);
    WalkAccepts(t, runtime);
    assert ([Live(t.live)] + Checks(t))[1..] == Checks(t);
    if !t.live { return Misused; }
    v := Walk(t, runtime);
  }

  // ----- the walk as one list of questions -----

  /** One question of the walk: whether a run is live here, or of which runtime something is. */
  datatype Check = Live(live: bool) | MadeBy(runtime: nat)

  /** Every question the walk might ask, in the order it asks them: whose a capability is, and of each it
      stands on in turn whether its run is live and then all of its own. */
  function Checks(t: Tree): seq<Check>
    decreases t, 1
  {
    [MadeBy(t.runtime)] + ChecksOf(t.standing)
  }

  function ChecksOf(standing: seq<Tree>): seq<Check>
    decreases standing, 0
  {
    if standing == [] then [] else [Live(standing[0].live)] + Checks(standing[0]) + ChecksOf(standing[1..])
  }

  predicate Passes(check: Check, runtime: nat) {
    match check
    case Live(live) => live
    case MadeBy(maker) => maker == runtime
  }

  /** What the first question not passed refuses for, and accepted where all are. */
  function FirstRefusal(checks: seq<Check>, runtime: nat): (v: Verdict)
    ensures v.Accepted? <==> forall i :: 0 <= i < |checks| ==> Passes(checks[i], runtime)
    ensures !v.Accepted? ==> exists i :: 0 <= i < |checks| && !Passes(checks[i], runtime) && v == Refuses(checks[i])
                               && forall j :: 0 <= j < i ==> Passes(checks[j], runtime)
  {
    if checks == [] then Accepted
    else if !Passes(checks[0], runtime) then Refuses(checks[0])
    else
      var v := FirstRefusal(checks[1..], runtime);
      assert !v.Accepted? ==> exists i :: 1 <= i < |checks| && !Passes(checks[i], runtime) && v == Refuses(checks[i])
                                && forall j :: 0 <= j < i ==> Passes(checks[j], runtime) by {
        if !v.Accepted? {
          var i :| 0 <= i < |checks| - 1 && !Passes(checks[1..][i], runtime) && v == Refuses(checks[1..][i])
            && forall j :: 0 <= j < i ==> Passes(checks[1..][j], runtime);
          assert checks[i + 1] == checks[1..][i];
          assert forall j :: 1 <= j < i + 1 ==> checks[j] == checks[1..][j - 1];
        }
      }
      v
  }

  function Refuses(check: Check): Verdict {
    if check.Live? then Misused else Foreign
  }

  lemma {:induction false} FirstRefusalThen(a: seq<Check>, b: seq<Check>, runtime: nat)
    ensures FirstRefusal(a + b, runtime)
         == if FirstRefusal(a, runtime).Accepted? then FirstRefusal(b, runtime) else FirstRefusal(a, runtime)
  {
    if a == [] {
      assert a + b == b;
    } else {
      FirstRefusalThen(a[1..], b, runtime);
      assert (a + b)[1..] == a[1..] + b;
    }
  }

  /** The walk refuses for the first of its questions not passed: a run that is over where one comes first,
      another runtime's where that does. */
  lemma {:induction false} OfIsFirstRefusal(t: Tree, runtime: nat)
    ensures Of(t, runtime) == FirstRefusal(Checks(t), runtime)
    decreases t, 1
  {
    OfAllIsFirstRefusal(t, t.standing, runtime);
    assert Checks(t)[1..] == ChecksOf(t.standing);
  }

  lemma {:induction false} OfAllIsFirstRefusal(parent: Tree, standing: seq<Tree>, runtime: nat)
    requires forall i :: 0 <= i < |standing| ==> standing[i] < parent
    ensures OfAll(standing, runtime) == FirstRefusal(ChecksOf(standing), runtime)
    decreases parent, 0, |standing|
  {
    if standing != [] {
      var one, rest := [Live(standing[0].live)] + Checks(standing[0]), ChecksOf(standing[1..]);
      OfIsFirstRefusal(standing[0], runtime);
      OfAllIsFirstRefusal(parent, standing[1..], runtime);
      assert one[1..] == Checks(standing[0]);
      FirstRefusalThen(one, rest, runtime);
    }
  }

  // ----- the one refines the other -----

  /** Every capability it stands on, at any depth, is of the runtime. */
  predicate MadeThroughout(t: Tree, runtime: nat) {
    t.runtime == runtime && forall i :: 0 <= i < |t.standing| ==> MadeThroughout(t.standing[i], runtime)
  }

  predicate LiveThroughout(t: Tree) {
    forall i :: 0 <= i < |t.standing| ==> t.standing[i].live && LiveThroughout(t.standing[i])
  }

  lemma {:induction false} MadeIsThroughout(t: Tree, runtime: nat)
    ensures Made(t) == Some(runtime) <==> MadeThroughout(t, runtime)
  {
    forall i | 0 <= i < |t.standing| ensures Made(t.standing[i]) == Some(runtime) <==> MadeThroughout(t.standing[i], runtime) {
      MadeIsThroughout(t.standing[i], runtime);
    }
  }

  /** The walk accepts exactly what is of the runtime throughout with every run live. */
  lemma {:induction false} WalkAccepts(t: Tree, runtime: nat)
    ensures Of(t, runtime) == Accepted <==> MadeThroughout(t, runtime) && LiveThroughout(t)
    ensures LiveThroughout(t) ==> Of(t, runtime) != Misused
    decreases t, 1
  {
    WalkAcceptsAll(t, t.standing, runtime);
  }

  lemma {:induction false} WalkAcceptsAll(parent: Tree, standing: seq<Tree>, runtime: nat)
    requires forall i :: 0 <= i < |standing| ==> standing[i] < parent
    ensures OfAll(standing, runtime) == Accepted <==>
      forall i :: 0 <= i < |standing| ==> standing[i].live && MadeThroughout(standing[i], runtime) && LiveThroughout(standing[i])
    ensures (forall i :: 0 <= i < |standing| ==> standing[i].live && LiveThroughout(standing[i])) ==> OfAll(standing, runtime) != Misused
    decreases parent, 0, |standing|
  {
    if standing != [] {
      WalkAccepts(standing[0], runtime);
      WalkAcceptsAll(parent, standing[1..], runtime);
      assert forall i :: 0 <= i < |standing| - 1 ==> standing[1..][i] == standing[i + 1];
    }
  }

  /** With every run live the settled verdict and the walk are one, for capabilities of any shape. */
  lemma SettledIsWalked(t: Tree, runtime: nat)
    requires LiveThroughout(t)
    ensures Of(t, runtime) == if Made(t) == Some(runtime) then Accepted else Foreign
  {
    MadeIsThroughout(t, runtime);
    WalkAccepts(t, runtime);
  }
}
