/** Runs of a Go process over every interleaving of its goroutines (bindings/go/runtime/run.go). A
    goroutine in a run is locked to its thread, so a thread stands for it here; each step below is one
    action of one thread, and an arena is what its library promises of it: one to each thread, closed
    only from the innermost scope, a token never answered twice. */
module GoRuns {
  import opened Options

  /** Where a thread is in opening and ending a run (`within`). */
  datatype Where =
    | Entered             // the run is made; its scope is not open yet
    | Opened              // the scope is open; the run is not live yet
    | Running             // the function the run was opened for
    | Expired             // that function returned or panicked; the scope is open still
    | Releasing(left: nat) // the scope is closed; so many of what was held are to be released yet

  /** A call of `within` going on: the run, the scope it opened, and the run it was opened from. */
  datatype Activation = Activation(run: nat, runtime: nat, token: nat, parent: Option<nat>, at: Where)

  /** A run as the package keeps it, with all that was ever held in it and what was released, in order. */
  datatype RunState = RunState(runtime: nat, thread: nat, token: nat, live: bool, child: Option<nat>,
                               release: seq<int>, held: seq<int>, released: seq<int>)

  datatype Root = Root(runtime: nat, thread: nat)

  datatype Process = Process(runs: seq<RunState>, roots: seq<Root>, arenas: map<Root, seq<nat>>,
                             stacks: map<nat, seq<Activation>>, tokens: nat)

  const START: Process := Process([], [], map[], map[], 0)

  function Stack(p: Process, t: nat): seq<Activation> {
    if t in p.stacks then p.stacks[t] else []
  }

  /** The scopes a thread has open in a library's arena. */
  function Arena(p: Process, runtime: nat, t: nat): seq<nat> {
    if Root(runtime, t) in p.arenas then p.arenas[Root(runtime, t)] else []
  }

  function Last<T>(s: seq<T>): T
    requires s != []
  {
    s[|s| - 1]
  }

  function Front<T>(s: seq<T>): seq<T>
    requires s != []
  {
    s[..|s| - 1]
  }

  /** Whether the thread is in a host's code: in none of the package's, or in the function of a run. */
  predicate AtHost(p: Process, t: nat) {
    Stack(p, t) == [] || Last(Stack(p, t)).at.Running?
  }

  /** `checkReading`, asked on thread `t`. */
  predicate Reading(p: Process, t: nat, r: nat) {
    r < |p.runs| && p.runs[r].live && p.runs[r].thread == t
  }

  /** `checkMaking`. */
  predicate Making(p: Process, t: nat, r: nat) {
    Reading(p, t, r) && p.runs[r].child.None?
  }

  // ----- steps -----

  datatype Step =
    | EnterRoot(t: nat, runtime: nat)
    | EnterScope(t: nat, run: nat)
    | OpenArena(t: nat)
    | GoLive(t: nat)
    | Expire(t: nat)
    | CloseArena(t: nat)
    | ReleaseOne(t: nat)
    | Leave(t: nat)
    | Hold(t: nat, run: nat, item: int)

  /** The innermost call of `within` on a thread moved on to `a`, its run to `run`, and the scopes the
      thread has open in its library's arena to `open`. */
  function Moved(p: Process, t: nat, a: Activation, run: RunState, open: seq<nat>): Process
    requires Stack(p, t) != [] && a.run < |p.runs|
  {
    p.(runs := p.runs[a.run := run],
       arenas := if open == Arena(p, a.runtime, t) then p.arenas else p.arenas[Root(a.runtime, t) := open],
       stacks := p.stacks[t := Front(Stack(p, t)) + [a]])
  }

  function Pushed(p: Process, t: nat, runtime: nat, parent: Option<nat>): Process {
    p.(runs := p.runs + [RunState(runtime, t, 0, false, None, [], [], [])],
       stacks := p.stacks[t := Stack(p, t) + [Activation(|p.runs|, runtime, 0, parent, Entered)]])
  }

  function WithRun(p: Process, r: nat, run: RunState): Process
    requires r < |p.runs|
  {
    p.(runs := p.runs[r := run])
  }

  predicate NoneTwice(roots: seq<Root>) {
    forall i, j :: 0 <= i < j < |roots| ==> roots[i] != roots[j]
  }

  function Without(roots: seq<Root>, root: Root): (r: seq<Root>)
    ensures forall x :: x in r ==> x in roots
    ensures forall x :: x in roots && x != root ==> x in r
    ensures NoneTwice(roots) ==> root !in r && NoneTwice(r)
  {
    if roots == [] then []
    else if roots[0] == root then roots[1..]
    else
      var r := Without(roots[1..], root);
      assert forall j :: 0 <= j < |r| ==> r[j] in roots[1..];
      [roots[0]] + r
  }

  /** `token` is on top of the thread's scopes in that arena, which is when closing succeeds. */
  predicate Closes(p: Process, runtime: nat, t: nat, token: nat) {
    Arena(p, runtime, t) != [] && Last(Arena(p, runtime, t)) == token
  }

  /** One action of one thread; a step the thread is not at, or one refused, changes nothing. */
  function Next(p: Process, step: Step): Process {
    match step
    case EnterRoot(t, runtime) =>
      if AtHost(p, t) && Root(runtime, t) !in p.roots then
        Pushed(p, t, runtime, None).(roots := p.roots + [Root(runtime, t)])
      else p
    case EnterScope(t, r) =>
      if AtHost(p, t) && Making(p, t, r) then
        Pushed(WithRun(p, r, p.runs[r].(child := Some(|p.runs|))), t, p.runs[r].runtime, Some(r))
      else p
    case Hold(t, r, item) =>
      if AtHost(p, t) && Reading(p, t, r) then
        WithRun(p, r, p.runs[r].(release := p.runs[r].release + [item], held := p.runs[r].held + [item]))
      else p
    case _ => NextWithin(p, step)
  }

  /** The steps of `within` itself, for the innermost call of it on the thread. */
  function NextWithin(p: Process, step: Step): Process
    requires !step.EnterRoot? && !step.EnterScope? && !step.Hold?
  {
    var t := step.t;
    if Stack(p, t) == [] || Last(Stack(p, t)).run >= |p.runs| then p
    else
      var a := Last(Stack(p, t));
      var run, open := p.runs[a.run], Arena(p, a.runtime, t);
      match step
      case OpenArena(_) =>
        if !a.at.Entered? then p
        else
          Moved(p, t, a.(token := p.tokens, at := Opened), run.(token := p.tokens), open + [p.tokens]).(tokens := p.tokens + 1)
      case GoLive(_) =>
        if !a.at.Opened? then p else Moved(p, t, a.(at := Running), run.(live := true), open)
      case Expire(_) =>
        if !a.at.Running? then p else Moved(p, t, a.(at := Expired), run.(live := false), open)
      case CloseArena(_) =>
        if !a.at.Expired? then p
        else
          Moved(p, t, a.(at := Releasing(|run.release|)), run, if Closes(p, a.runtime, t, a.token) then Front(open) else open)
      case ReleaseOne(_) =>
        if !a.at.Releasing? || a.at.left == 0 || a.at.left > |run.release| then p
        else
          Moved(p, t, a.(at := Releasing(a.at.left - 1)), run.(released := run.released + [run.release[a.at.left - 1]]), open)
      case Leave(_) =>
        if a.at != Releasing(0) then p
        else
          var ended := WithRun(p, a.run, run.(release := [])).(stacks := p.stacks[t := Front(Stack(p, t))]);
          if a.parent.None? then ended.(roots := Without(p.roots, Root(a.runtime, t)))
          else if a.parent.value >= |p.runs| then ended
          else WithRun(ended, a.parent.value, ended.runs[a.parent.value].(child := None))
  }

  function After(p: Process, steps: seq<Step>): Process {
    if steps == [] then p else Next(After(p, Front(steps)), Last(steps))
  }

  // ----- what every step keeps -----

  /** Whether the scope a call of `within` opened is open. */
  predicate Holds(at: Where) {
    at.Opened? || at.Running? || at.Expired?
  }

  /** The scopes of a library that a stack of calls of `within` has open, in order. */
  function Tokens(s: seq<Activation>, runtime: nat): seq<nat> {
    if s == [] then []
    else Tokens(Front(s), runtime) + if Last(s).runtime == runtime && Holds(Last(s).at) then [Last(s).token] else []
  }

  predicate InnermostAt(s: seq<Activation>, i: int, runtime: nat)
    requires 0 <= i < |s|
  {
    s[i].runtime == runtime && forall j :: i < j < |s| ==> s[j].runtime != runtime
  }

  /** The innermost run of a library's on a stack. */
  function Innermost(s: seq<Activation>, runtime: nat): Option<nat> {
    if s == [] then None
    else if Last(s).runtime == runtime then Some(Last(s).run)
    else Innermost(Front(s), runtime)
  }

  lemma {:induction false} InnermostIs(s: seq<Activation>, i: nat, runtime: nat)
    requires i < |s| && InnermostAt(s, i, runtime)
    ensures Innermost(s, runtime) == Some(s[i].run)
  {
    if i < |s| - 1 {
      assert forall j :: i < j < |s| - 1 ==> Front(s)[j] == s[j];
      InnermostIs(Front(s), i, runtime);
    }
  }

  function Reversed(s: seq<int>): seq<int> {
    if s == [] then [] else Reversed(s[1..]) + [s[0]]
  }

  /** What a run held and released, by where its call of `within` is. */
  predicate ReleaseKept(run: RunState, at: Where) {
    && run.release == run.held
    && if at.Releasing? then at.left <= |run.held| && run.released == Reversed(run.held[at.left..])
       else run.released == []
  }

  /** A run that has ended: everything held was released once, the last held first, and nothing is kept. */
  predicate Ended(run: RunState) {
    !run.live && run.release == [] && run.released == Reversed(run.held)
  }

  predicate ActivationKept(p: Process, t: nat, a: Activation) {
    && a.run < |p.runs|
    && var run := p.runs[a.run];
       && run.thread == t && run.runtime == a.runtime && run.token == a.token
       && (run.live <==> a.at.Running?) && ReleaseKept(run, a.at)
  }

  /** Calls of `within` nest: only the innermost is anywhere but in its function, no run is in two of
      them, and each was opened from the innermost run its library had. */
  predicate Nested(s: seq<Activation>) {
    && (forall i, j :: 0 <= i < j < |s| ==> s[i].run != s[j].run)
    && (forall i :: 0 <= i < |s| - 1 ==> s[i].at.Running?)
    && (forall i :: 0 <= i < |s| ==> OpenedFrom(s, i))
  }

  predicate OpenedFrom(s: seq<Activation>, i: nat)
    requires i < |s|
  {
    s[i].parent == Innermost(s[..i], s[i].runtime)
  }

  /** A run's child is the run opened from it. */
  predicate ChildrenKept(runs: seq<RunState>, s: seq<Activation>) {
    && (forall i :: 0 <= i < |s| ==> s[i].run < |runs|)
    && (forall i, j :: 0 <= i < j < |s| && s[j].parent == Some(s[i].run) ==> runs[s[i].run].child == Some(s[j].run))
    && (forall i :: 0 <= i < |s| && runs[s[i].run].child.Some? ==> exists j :: i < j < |s| && s[j].parent == Some(s[i].run))
  }

  /** What a thread's stack of runs is kept to. */
  ghost predicate ThreadKept(p: Process, t: nat) {
    var s := Stack(p, t);
    && (forall i :: 0 <= i < |s| ==> ActivationKept(p, t, s[i]))
    && Nested(s) && ChildrenKept(p.runs, s)
    && (forall runtime: nat :: ScopesKept(p, t, runtime))
  }

  /** A library's scopes open on a thread are its runs', in order, and it has a root run open there
      exactly where it has a run there. */
  predicate ScopesKept(p: Process, t: nat, runtime: nat) {
    && Arena(p, runtime, t) == Tokens(Stack(p, t), runtime)
    && (Root(runtime, t) in p.roots <==> Innermost(Stack(p, t), runtime).Some?)
  }

  predicate OnStack(p: Process, r: nat)
    requires r < |p.runs|
  {
    exists i :: 0 <= i < |Stack(p, p.runs[r].thread)| && Stack(p, p.runs[r].thread)[i].run == r
  }

  predicate Settled(p: Process, r: nat)
    requires r < |p.runs|
  {
    OnStack(p, r) || Ended(p.runs[r])
  }

  ghost predicate Kept(p: Process) {
    && (forall t :: ThreadKept(p, t))
    && (forall r :: 0 <= r < |p.runs| ==> Settled(p, r))
    && NoneTwice(p.roots)
  }

  // ----- reading the invariant -----

  lemma {:induction false} TokensHas(s: seq<Activation>, i: nat, runtime: nat)
    requires i < |s| && s[i].runtime == runtime && Holds(s[i].at)
    ensures s[i].token in Tokens(s, runtime)
  {
    if i < |s| - 1 { TokensHas(Front(s), i, runtime); }
  }

  lemma {:induction false} TokensLast(s: seq<Activation>, i: nat, runtime: nat)
    requires i < |s| && InnermostAt(s, i, runtime) && Holds(s[i].at)
    ensures Tokens(s, runtime) != [] && Last(Tokens(s, runtime)) == s[i].token
  {
    if i < |s| - 1 {
      assert forall j :: i < j < |s| - 1 ==> Front(s)[j] == s[j];
      TokensLast(Front(s), i, runtime);
    }
  }

  /** The next run of the same library above one on a stack. */
  lemma {:induction false} NextAbove(s: seq<Activation>, i: nat, j: nat) returns (k: nat)
    requires i < j < |s| && s[j].runtime == s[i].runtime
    ensures i < k <= j && s[k].runtime == s[i].runtime && forall m :: i < m < k ==> s[m].runtime != s[i].runtime
  {
    k := i + 1;
    while s[k].runtime != s[i].runtime
      invariant i < k <= j && forall m :: i < m < k ==> s[m].runtime != s[i].runtime
      decreases j - k
    {
      k := k + 1;
    }
  }

  lemma InnermostBelow(s: seq<Activation>, i: nat, k: nat)
    requires i < k <= |s| && forall m :: i < m < k ==> s[m].runtime != s[i].runtime
    ensures Innermost(s[..k], s[i].runtime) == Some(s[i].run)
  {
    assert forall m :: i <= m < k ==> s[..k][m] == s[m];
    InnermostIs(s[..k], i, s[i].runtime);
  }

  /** A run with no child is the innermost of its library's on its thread. */
  lemma ChildlessIsInnermost(p: Process, t: nat, i: nat)
    requires ThreadKept(p, t) && i < |Stack(p, t)| && p.runs[Stack(p, t)[i].run].child.None?
    ensures InnermostAt(Stack(p, t), i, Stack(p, t)[i].runtime)
  {
    var s := Stack(p, t);
    if j: nat :| i < j < |s| && s[j].runtime == s[i].runtime {
      var k := NextAbove(s, i, j);
      InnermostBelow(s, i, k);
      assert OpenedFrom(s, k) ==> p.runs[s[i].run].child == Some(s[k].run);
    }
  }

  /** A value that may be read stands in a scope open on the thread reading it. */
  lemma ReadStandsInAnOpenScope(p: Process, t: nat, r: nat)
    requires Kept(p) && Reading(p, t, r)
    ensures p.runs[r].token in Arena(p, p.runs[r].runtime, t)
    ensures exists i :: 0 <= i < |Stack(p, t)| && Stack(p, t)[i].run == r && Stack(p, t)[i].at.Running?
  {
    assert Settled(p, r);
    assert ThreadKept(p, t) && ScopesKept(p, t, p.runs[r].runtime);
    var i :| 0 <= i < |Stack(p, t)| && Stack(p, t)[i].run == r;
    assert ActivationKept(p, t, Stack(p, t)[i]);
    TokensHas(Stack(p, t), i, p.runs[r].runtime);
  }

  /** A run that passes `Making` has its token on top of the thread's scopes for its runtime, so that is
      the scope an allocation lands in, and it is the last of its runtime on the stack. */
  lemma MadeStandsInTheInnermost(p: Process, t: nat, r: nat)
    requires Kept(p) && Making(p, t, r)
    ensures Arena(p, p.runs[r].runtime, t) != [] && Last(Arena(p, p.runs[r].runtime, t)) == p.runs[r].token
    ensures Innermost(Stack(p, t), p.runs[r].runtime) == Some(r)
  {
    ReadStandsInAnOpenScope(p, t, r);
    var s := Stack(p, t);
    assert ThreadKept(p, t) && ScopesKept(p, t, p.runs[r].runtime);
    var i :| 0 <= i < |s| && s[i].run == r && s[i].at.Running?;
    assert ActivationKept(p, t, s[i]);
    ChildlessIsInnermost(p, t, i);
    TokensLast(s, i, p.runs[r].runtime);
    assert s[..|s|] == s;
    InnermostBelow(s, i, |s|);
  }

  /** A scope is closed as the innermost of its thread's, so the library never refuses it. */
  lemma CloseIsNeverRefused(p: Process, t: nat)
    requires Kept(p) && Stack(p, t) != [] && Last(Stack(p, t)).at.Expired?
    ensures Closes(p, Last(Stack(p, t)).runtime, t, Last(Stack(p, t)).token)
  {
    var s := Stack(p, t);
    assert ThreadKept(p, t) && ScopesKept(p, t, Last(s).runtime);
    TokensLast(s, |s| - 1, Last(s).runtime);
  }

  /** A value handed to a computation in a run of the same runtime (`Ref.In`): its scope is open on the
      thread, at or outside the innermost, which is the run's. */
  lemma HandedStandsInAnOpenScope(p: Process, t: nat, v: nat, r: nat)
    requires Kept(p) && Reading(p, t, v) && Making(p, t, r) && p.runs[v].runtime == p.runs[r].runtime
    ensures p.runs[v].token in Arena(p, p.runs[r].runtime, t) && Last(Arena(p, p.runs[r].runtime, t)) == p.runs[r].token
  {
    ReadStandsInAnOpenScope(p, t, v);
    MadeStandsInTheInnermost(p, t, r);
  }

  // ----- every step keeps it -----

  /** A thread's step is its own: what another thread's runs are kept to is read off nothing it changes. */
  lemma OthersKept(p: Process, q: Process, t: nat, u: nat)
    requires ThreadKept(p, u) && u != t
    requires Stack(q, u) == Stack(p, u) && forall runtime :: Arena(q, runtime, u) == Arena(p, runtime, u)
    requires forall runtime :: Root(runtime, u) in q.roots <==> Root(runtime, u) in p.roots
    requires |p.runs| <= |q.runs| && forall r :: 0 <= r < |p.runs| && p.runs[r].thread != t ==> q.runs[r] == p.runs[r]
    ensures ThreadKept(q, u)
  {
    var s := Stack(p, u);
    forall i | 0 <= i < |s| ensures q.runs[s[i].run] == p.runs[s[i].run] {
      assert ActivationKept(p, u, s[i]);
    }
    forall i | 0 <= i < |s| ensures ActivationKept(q, u, s[i]) {
      assert ActivationKept(p, u, s[i]);
    }
    forall runtime: nat ensures ScopesKept(q, u, runtime) {
      assert ScopesKept(p, u, runtime);
    }
  }

  /** The same calls of `within`, the innermost of them somewhere else. */
  predicate MovedOn(s: seq<Activation>, z: seq<Activation>) {
    && s != [] && |z| == |s| && Front(z) == Front(s)
    && Last(z).run == Last(s).run && Last(z).runtime == Last(s).runtime && Last(z).parent == Last(s).parent
  }

  lemma MovedOnNested(s: seq<Activation>, z: seq<Activation>)
    requires MovedOn(s, z) && Nested(s)
    ensures Nested(z)
    ensures forall runtime :: Innermost(z, runtime) == Innermost(s, runtime)
  {
    forall i | 0 <= i < |z| - 1 ensures z[i] == s[i] {
      assert Front(z)[i] == Front(s)[i];
    }
    forall i | 0 <= i < |z| ensures OpenedFrom(z, i) {
      assert OpenedFrom(s, i) && z[..i] == s[..i];
    }
    forall runtime ensures Innermost(z, runtime) == Innermost(s, runtime) {
      assert Front(z) == Front(s);
    }
  }

  lemma MovedOnChildren(s: seq<Activation>, z: seq<Activation>, runs: seq<RunState>, after: seq<RunState>)
    requires MovedOn(s, z) && ChildrenKept(runs, s)
    requires |after| == |runs| && forall r :: 0 <= r < |runs| ==> after[r].child == runs[r].child
    ensures ChildrenKept(after, z)
  {
    forall i | 0 <= i < |z| ensures z[i].run == s[i].run && z[i].parent == s[i].parent {
      if i < |z| - 1 { assert Front(z)[i] == Front(s)[i]; }
    }
    forall i | 0 <= i < |z| && after[z[i].run].child.Some? ensures exists j :: i < j < |z| && z[j].parent == Some(z[i].run) {
      var j :| i < j < |s| && s[j].parent == Some(s[i].run);
      assert z[j].parent == Some(z[i].run);
    }
  }

  /** What the innermost call of `within` on a thread changes: where it is, and its own run. */
  lemma TopKept(p: Process, q: Process, t: nat)
    requires ThreadKept(p, t) && MovedOn(Stack(p, t), Stack(q, t))
    requires |q.runs| == |p.runs| && forall r :: 0 <= r < |p.runs| ==> q.runs[r].child == p.runs[r].child
    requires forall r :: 0 <= r < |p.runs| && r != Last(Stack(p, t)).run ==> q.runs[r] == p.runs[r]
    requires ActivationKept(q, t, Last(Stack(q, t))) && forall runtime: nat :: ScopesKept(q, t, runtime)
    ensures ThreadKept(q, t)
  {
    var s, z := Stack(p, t), Stack(q, t);
    MovedOnNested(s, z);
    MovedOnChildren(s, z, p.runs, q.runs);
    forall i | 0 <= i < |z| ensures ActivationKept(q, t, z[i]) {
      if i < |z| - 1 {
        assert Front(z)[i] == Front(s)[i];
        assert ActivationKept(p, t, s[i]);
      }
    }
  }

  /** What a step of thread `t` leaves alone. */
  ghost predicate Apart(p: Process, q: Process, t: nat) {
    && |p.runs| <= |q.runs| && (forall r :: 0 <= r < |p.runs| && p.runs[r].thread != t ==> q.runs[r] == p.runs[r])
    && (forall u :: u != t ==> Stack(q, u) == Stack(p, u))
    && (forall u, runtime :: u != t ==> Arena(q, runtime, u) == Arena(p, runtime, u))
    && (forall u, runtime :: u != t ==> (Root(runtime, u) in q.roots <==> Root(runtime, u) in p.roots))
  }

  lemma ApartKept(p: Process, q: Process, t: nat)
    requires Kept(p) && Apart(p, q, t) && ThreadKept(q, t) && NoneTwice(q.roots)
    requires forall r :: 0 <= r < |q.runs| && (r >= |p.runs| || p.runs[r].thread == t) ==> Settled(q, r)
    ensures Kept(q)
  {
    forall u ensures ThreadKept(q, u) {
      if u != t {
        assert ThreadKept(p, u);
        OthersKept(p, q, t, u);
      }
    }
    forall r | 0 <= r < |q.runs| ensures Settled(q, r) {
      if r < |p.runs| && p.runs[r].thread != t {
        assert Settled(p, r);
      }
    }
  }

  /** What a step of the innermost call of `within` may make of it, its run and its library's scopes. */
  ghost predicate MovedTo(p: Process, t: nat, a: Activation, run: RunState, open: seq<nat>) {
    && Stack(p, t) != [] && a.run < |p.runs|
    && (var was := Last(Stack(p, t)); a.run == was.run && a.runtime == was.runtime && a.parent == was.parent)
    && run.child == p.runs[a.run].child && run.thread == t && run.runtime == a.runtime && run.token == a.token
    && (run.live <==> a.at.Running?) && ReleaseKept(run, a.at)
    && open == Tokens(Front(Stack(p, t)), a.runtime) + if Holds(a.at) then [a.token] else []
  }

  lemma MovedThread(p: Process, t: nat, a: Activation, run: RunState, open: seq<nat>)
    requires ThreadKept(p, t) && MovedTo(p, t, a, run, open)
    ensures ThreadKept(Moved(p, t, a, run, open), t)
  {
    var q := Moved(p, t, a, run, open);
    var s, z := Stack(p, t), Stack(q, t);
    assert Front(z) == Front(s) && Last(z) == a;
    MovedOnNested(s, z);
    forall runtime: nat ensures ScopesKept(q, t, runtime) {
      assert ScopesKept(p, t, runtime);
      if runtime != a.runtime { TokensOfOthers(s, z, runtime); }
    }
    TopKept(p, q, t);
  }

  /** A step of the innermost call of `within` on a thread. */
  lemma MovedKept(p: Process, t: nat, a: Activation, run: RunState, open: seq<nat>)
    requires Kept(p) && MovedTo(p, t, a, run, open)
    ensures Kept(Moved(p, t, a, run, open))
  {
    var q := Moved(p, t, a, run, open);
    var s, z := Stack(p, t), Stack(q, t);
    assert ThreadKept(p, t);
    assert ActivationKept(p, t, s[|s| - 1]);
    MovedThread(p, t, a, run, open);
    assert Front(z) == Front(s) && Last(z) == a;
    forall r | 0 <= r < |q.runs| && p.runs[r].thread == t ensures Settled(q, r) {
      MovedOnStack(p, q, t, r);
    }
    ApartKept(p, q, t);
  }

  lemma TokensOfOthers(s: seq<Activation>, z: seq<Activation>, runtime: nat)
    requires MovedOn(s, z) && Last(s).runtime != runtime
    ensures Tokens(z, runtime) == Tokens(s, runtime)
  {
  }

  lemma MovedOnStack(p: Process, q: Process, t: nat, r: nat)
    requires Kept(p) && MovedOn(Stack(p, t), Stack(q, t)) && r < |p.runs| == |q.runs|
    requires p.runs[r].thread == t && q.runs[r].thread == t && (r == Last(Stack(p, t)).run || q.runs[r] == p.runs[r])
    ensures Settled(q, r)
  {
    var s, z := Stack(p, t), Stack(q, t);
    assert Settled(p, r);
    if r == Last(s).run {
      assert z[|z| - 1].run == r;
    } else if OnStack(p, r) {
      var i :| 0 <= i < |s| && s[i].run == r;
      assert Front(z)[i] == Front(s)[i];
    }
  }

  /** What the innermost call of `within` on a thread is kept to. */
  lemma TopIs(p: Process, t: nat)
    requires Kept(p) && Stack(p, t) != []
    ensures var a := Last(Stack(p, t));
      && ActivationKept(p, t, a) && Arena(p, a.runtime, t) == Tokens(Stack(p, t), a.runtime)
  {
    var s := Stack(p, t);
    assert ThreadKept(p, t) && ActivationKept(p, t, s[|s| - 1]) && ScopesKept(p, t, Last(s).runtime);
  }

  lemma {:induction false} OpenArenaKept(p: Process, t: nat)
    requires Kept(p)
    ensures Kept(Next(p, OpenArena(t)))
  {
    hide Kept;
    if Stack(p, t) != [] && Last(Stack(p, t)).at.Entered? {
      TopIs(p, t);
      var a := Last(Stack(p, t));
      var run, open := p.runs[a.run], Arena(p, a.runtime, t);
      var b := a.(token := p.tokens, at := Opened);
      MovedKept(p, t, b, run.(token := p.tokens), open + [p.tokens]);
      TokensCount(Moved(p, t, b, run.(token := p.tokens), open + [p.tokens]), p.tokens + 1);
    }
  }

  lemma {:induction false} GoLiveKept(p: Process, t: nat)
    requires Kept(p)
    ensures Kept(Next(p, GoLive(t)))
  {
    hide Kept;
    if Stack(p, t) != [] && Last(Stack(p, t)).at.Opened? {
      TopIs(p, t);
      var a := Last(Stack(p, t));
      MovedKept(p, t, a.(at := Running), p.runs[a.run].(live := true), Arena(p, a.runtime, t));
    }
  }

  lemma {:induction false} ExpireKept(p: Process, t: nat)
    requires Kept(p)
    ensures Kept(Next(p, Expire(t)))
  {
    hide Kept;
    if Stack(p, t) != [] && Last(Stack(p, t)).at.Running? {
      TopIs(p, t);
      var a := Last(Stack(p, t));
      MovedKept(p, t, a.(at := Expired), p.runs[a.run].(live := false), Arena(p, a.runtime, t));
    }
  }

  lemma {:induction false} CloseArenaKept(p: Process, t: nat)
    requires Kept(p)
    ensures Kept(Next(p, CloseArena(t)))
  {
    hide Kept;
    if Stack(p, t) != [] && Last(Stack(p, t)).at.Expired? {
      TopIs(p, t);
      CloseIsNeverRefused(p, t);
      var a := Last(Stack(p, t));
      var run := p.runs[a.run];
      assert run.held[|run.held|..] == [];
      MovedKept(p, t, a.(at := Releasing(|run.release|)), run, Front(Arena(p, a.runtime, t)));
    }
  }

  lemma TokensCount(p: Process, tokens: nat)
    requires Kept(p)
    ensures Kept(p.(tokens := tokens))
  {
    var q := p.(tokens := tokens);
    forall t ensures ThreadKept(q, t) {
      assert ThreadKept(p, t);
      forall i | 0 <= i < |Stack(p, t)| ensures ActivationKept(q, t, Stack(p, t)[i]) { assert ActivationKept(p, t, Stack(p, t)[i]); }
      forall runtime: nat ensures ScopesKept(q, t, runtime) { assert ScopesKept(p, t, runtime); }
    }
    forall r | 0 <= r < |q.runs| ensures Settled(q, r) {
      SettledStill(p, q, r);
    }
  }

  /** A run is settled as it was where its thread's calls of `within` are. */
  lemma SettledStill(p: Process, q: Process, r: nat)
    requires r < |p.runs| && r < |q.runs| && Settled(p, r) && q.runs[r].thread == p.runs[r].thread
    requires Stack(q, p.runs[r].thread) == Stack(p, p.runs[r].thread) && (OnStack(p, r) || q.runs[r] == p.runs[r])
    ensures Settled(q, r)
  {
    if OnStack(p, r) {
      var s := Stack(q, q.runs[r].thread);
      var i :| 0 <= i < |s| && s[i].run == r;
      assert OnStack(q, r);
    }
  }

  lemma {:induction false} ReleaseOneKept(p: Process, t: nat)
    requires Kept(p)
    ensures Kept(Next(p, ReleaseOne(t)))
  {
    hide Kept;
    if Stack(p, t) != [] && Last(Stack(p, t)).at.Releasing? && Last(Stack(p, t)).at.left > 0 {
      TopIs(p, t);
      var a := Last(Stack(p, t));
      var run, left := p.runs[a.run], a.at.left;
      ReleasedNext(run, left);
      MovedKept(p, t, a.(at := Releasing(left - 1)), run.(released := run.released + [run.release[left - 1]]), Arena(p, a.runtime, t));
    }
  }

  lemma ReleasedNext(run: RunState, left: nat)
    requires left > 0 && ReleaseKept(run, Releasing(left))
    ensures ReleaseKept(run.(released := run.released + [run.release[left - 1]]), Releasing(left - 1))
  {
    assert run.held[left - 1..][1..] == run.held[left..];
  }

  lemma {:induction false} HoldKept(p: Process, t: nat, r: nat, item: int)
    requires Kept(p)
    ensures Kept(Next(p, Hold(t, r, item)))
  {
    if AtHost(p, t) && Reading(p, t, r) {
      ReadStandsInAnOpenScope(p, t, r);
      HeldKept(p, WithRun(p, r, p.runs[r].(release := p.runs[r].release + [item], held := p.runs[r].held + [item])), t, r, item);
    }
  }

  lemma HeldThread(p: Process, q: Process, t: nat, r: nat, item: int)
    requires ThreadKept(p, t) && r < |p.runs|
    requires forall i :: 0 <= i < |Stack(p, t)| && Stack(p, t)[i].run == r ==> Stack(p, t)[i].at.Running?
    requires q == WithRun(p, r, p.runs[r].(release := p.runs[r].release + [item], held := p.runs[r].held + [item]))
    ensures ThreadKept(q, t)
  {
    var s := Stack(p, t);
    forall i | 0 <= i < |s| ensures ActivationKept(q, t, s[i]) {
      assert ActivationKept(p, t, s[i]);
    }
    forall i | 0 <= i < |s| ensures q.runs[s[i].run].child == p.runs[s[i].run].child { }
    forall runtime: nat ensures ScopesKept(q, t, runtime) { assert ScopesKept(p, t, runtime); }
  }

  lemma HeldKept(p: Process, q: Process, t: nat, r: nat, item: int)
    requires Kept(p) && Reading(p, t, r)
    requires exists i :: 0 <= i < |Stack(p, t)| && Stack(p, t)[i].run == r && Stack(p, t)[i].at.Running?
    requires q == WithRun(p, r, p.runs[r].(release := p.runs[r].release + [item], held := p.runs[r].held + [item]))
    ensures Kept(q)
  {
    var s := Stack(p, t);
    assert ThreadKept(p, t);
    var at :| 0 <= at < |s| && s[at].run == r && s[at].at.Running?;
    HeldThread(p, q, t, r, item);
    assert s[at].run == r && OnStack(p, r);
    forall x | 0 <= x < |q.runs| && p.runs[x].thread == t ensures Settled(q, x) {
      SettledStill(p, q, x);
    }
    ApartKept(p, q, t);
  }

  // ----- opening a run and ending it -----

  lemma NestedPush(s: seq<Activation>, a: Activation)
    requires Nested(s) && (s == [] || Last(s).at.Running?) && a.parent == Innermost(s, a.runtime)
    requires forall i :: 0 <= i < |s| ==> s[i].run != a.run
    ensures Nested(s + [a])
  {
    var z := s + [a];
    forall i | 0 <= i < |z| ensures OpenedFrom(z, i) {
      if i < |s| {
        assert OpenedFrom(s, i) && z[..i] == s[..i];
      } else {
        assert z[..i] == s;
      }
    }
  }

  lemma ChildrenPush(runs: seq<RunState>, s: seq<Activation>, a: Activation, after: seq<RunState>)
    requires Nested(s) && ChildrenKept(runs, s) && a.run == |runs| && |after| == |runs| + 1 && after[a.run].child.None?
    requires a.parent.Some? ==> a.parent.value < |runs| && runs[a.parent.value].child.None? && after[a.parent.value].child == Some(a.run)
    requires forall r :: 0 <= r < |runs| && a.parent != Some(r) ==> after[r].child == runs[r].child
    ensures ChildrenKept(after, s + [a])
  {
    var z := s + [a];
    forall i | 0 <= i < |z| && after[z[i].run].child.Some? ensures exists j :: i < j < |z| && z[j].parent == Some(z[i].run) {
      if a.parent == Some(z[i].run) {
        assert z[|s|].parent == Some(z[i].run);
      } else {
        var j :| i < j < |s| && s[j].parent == Some(s[i].run);
        assert z[j] == s[j];
      }
    }
  }

  /** What opening a run is: a call of `within` on top of a thread's others. */
  ghost predicate PushedTo(p: Process, q: Process, t: nat, a: Activation) {
    && a == Activation(|p.runs|, a.runtime, 0, Innermost(Stack(p, t), a.runtime), Entered)
    && Stack(q, t) == Stack(p, t) + [a] && |q.runs| == |p.runs| + 1
    && q.runs[|p.runs|] == RunState(a.runtime, t, 0, false, None, [], [], [])
    && (a.parent.Some? ==> a.parent.value < |p.runs| && p.runs[a.parent.value].child.None?)
    && (forall r :: 0 <= r < |p.runs| ==>
          q.runs[r] == p.runs[r].(child := if a.parent == Some(r) then Some(a.run) else p.runs[r].child))
    && (forall runtime :: Arena(q, runtime, t) == Arena(p, runtime, t))
    && (forall runtime: nat :: Root(runtime, t) in q.roots <==> runtime == a.runtime || Root(runtime, t) in p.roots)
  }

  lemma PushedThread(p: Process, q: Process, t: nat, a: Activation)
    requires ThreadKept(p, t) && AtHost(p, t) && PushedTo(p, q, t, a)
    ensures ThreadKept(q, t)
  {
    var s, z := Stack(p, t), Stack(q, t);
    forall i | 0 <= i < |z| ensures ActivationKept(q, t, z[i]) {
      if i < |s| { assert ActivationKept(p, t, s[i]); }
    }
    forall i | 0 <= i < |s| ensures s[i].run != a.run { assert ActivationKept(p, t, s[i]); }
    NestedPush(s, a);
    ChildrenPush(p.runs, s, a, q.runs);
    forall runtime: nat ensures ScopesKept(q, t, runtime) {
      assert ScopesKept(p, t, runtime);
      PushedScopes(s, a, runtime);
    }
  }

  lemma PushedScopes(s: seq<Activation>, a: Activation, runtime: nat)
    requires a.at.Entered?
    ensures Tokens(s + [a], runtime) == Tokens(s, runtime)
    ensures Innermost(s + [a], runtime) == if a.runtime == runtime then Some(a.run) else Innermost(s, runtime)
  {
    assert Front(s + [a]) == s;
  }

  lemma PushedKept(p: Process, q: Process, t: nat, a: Activation)
    requires Kept(p) && AtHost(p, t) && Apart(p, q, t) && NoneTwice(q.roots) && PushedTo(p, q, t, a)
    ensures Kept(q)
  {
    assert ThreadKept(p, t);
    PushedThread(p, q, t, a);
    forall r | 0 <= r < |q.runs| && (r >= |p.runs| || p.runs[r].thread == t) ensures Settled(q, r) {
      PushedSettled(p, q, t, a, r);
    }
    ApartKept(p, q, t);
  }

  lemma PushedSettled(p: Process, q: Process, t: nat, a: Activation, r: nat)
    requires Kept(p) && Stack(q, t) == Stack(p, t) + [a] && r < |q.runs| == |p.runs| + 1 && q.runs[r].thread == t
    requires r < |p.runs| ==> p.runs[r].thread == t && q.runs[r] == p.runs[r].(child := q.runs[r].child)
    requires r == |p.runs| ==> a.run == r
    ensures Settled(q, r)
  {
    var z := Stack(q, t);
    if r == |p.runs| {
      assert z[|z| - 1].run == r;
    } else {
      assert Settled(p, r);
      if OnStack(p, r) {
        var i :| 0 <= i < |Stack(p, t)| && Stack(p, t)[i].run == r;
        assert z[i].run == r;
      }
    }
  }

  lemma {:induction false} EnterRootKept(p: Process, t: nat, runtime: nat)
    requires Kept(p)
    ensures Kept(Next(p, EnterRoot(t, runtime)))
  {
    var q := Next(p, EnterRoot(t, runtime));
    if AtHost(p, t) && Root(runtime, t) !in p.roots {
      assert ThreadKept(p, t) && ScopesKept(p, t, runtime);
      assert Innermost(Stack(p, t), runtime) == None;
      PushedKept(p, q, t, Activation(|p.runs|, runtime, 0, None, Entered));
    }
  }

  lemma ScopePushed(p: Process, t: nat, r: nat)
    requires AtHost(p, t) && Making(p, t, r)
    requires Innermost(Stack(p, t), p.runs[r].runtime) == Some(r) && Root(p.runs[r].runtime, t) in p.roots
    ensures var q := Next(p, EnterScope(t, r));
            && Apart(p, q, t) && q.roots == p.roots
            && PushedTo(p, q, t, Activation(|p.runs|, p.runs[r].runtime, 0, Some(r), Entered))
  {
  }

  lemma {:induction false} EnterScopeKept(p: Process, t: nat, r: nat)
    requires Kept(p)
    ensures Kept(Next(p, EnterScope(t, r)))
  {
    if AtHost(p, t) && Making(p, t, r) {
      var runtime := p.runs[r].runtime;
      MadeStandsInTheInnermost(p, t, r);
      assert ThreadKept(p, t) && ScopesKept(p, t, runtime);
      ScopePushed(p, t, r);
      PushedKept(p, Next(p, EnterScope(t, r)), t, Activation(|p.runs|, runtime, 0, Some(r), Entered));
    }
  }

  lemma {:induction false} InnermostOnStack(s: seq<Activation>, runtime: nat)
    requires Innermost(s, runtime).Some?
    ensures exists i :: 0 <= i < |s| && s[i].run == Innermost(s, runtime).value
  {
    if Last(s).runtime == runtime {
      assert s[|s| - 1].run == Innermost(s, runtime).value;
    } else {
      InnermostOnStack(Front(s), runtime);
      var i :| 0 <= i < |s| - 1 && Front(s)[i].run == Innermost(s, runtime).value;
      assert s[i].run == Innermost(s, runtime).value;
    }
  }

  lemma NestedPop(s: seq<Activation>)
    requires s != [] && Nested(s)
    ensures Nested(Front(s)) && Last(s).parent == Innermost(Front(s), Last(s).runtime)
  {
    assert OpenedFrom(s, |s| - 1);
    forall i | 0 <= i < |s| - 1 ensures OpenedFrom(Front(s), i) {
      assert OpenedFrom(s, i) && Front(s)[..i] == s[..i];
    }
  }

  lemma ChildrenPop(runs: seq<RunState>, s: seq<Activation>, after: seq<RunState>)
    requires s != [] && Nested(s) && ChildrenKept(runs, s) && |after| == |runs|
    requires forall r :: 0 <= r < |runs| ==> after[r].child == if Last(s).parent == Some(r) then None else runs[r].child
    ensures ChildrenKept(after, Front(s))
  {
    var z, a := Front(s), Last(s);
    forall i, j | 0 <= i < j < |z| && z[j].parent == Some(z[i].run) ensures after[z[i].run].child == Some(z[j].run) {
      assert runs[s[i].run].child == Some(s[j].run) && s[j].run != s[|s| - 1].run;
    }
    forall i | 0 <= i < |z| && after[z[i].run].child.Some? ensures exists j :: i < j < |z| && z[j].parent == Some(z[i].run) {
      var j :| i < j < |s| && s[j].parent == Some(s[i].run);
      assert z[j] == s[j];
    }
  }

  /** What ending a run is: its call of `within` off its thread's others. */
  ghost predicate PoppedTo(p: Process, q: Process, t: nat) {
    && Stack(p, t) != [] && Last(Stack(p, t)).at == Releasing(0) && Last(Stack(p, t)).run < |p.runs|
    && Stack(q, t) == Front(Stack(p, t)) && |q.runs| == |p.runs|
    && var a := Last(Stack(p, t));
       && (forall r :: 0 <= r < |p.runs| ==>
             q.runs[r] == p.runs[r].(child := if a.parent == Some(r) then None else p.runs[r].child,
                                     release := if r == a.run then [] else p.runs[r].release))
       && (forall runtime :: Arena(q, runtime, t) == Arena(p, runtime, t))
       && (forall runtime: nat :: Root(runtime, t) in q.roots <==>
             Root(runtime, t) in p.roots && (a.parent.None? ==> runtime != a.runtime))
  }

  /** The run a run was opened from is another run. */
  lemma ParentIsAnother(p: Process, t: nat)
    requires ThreadKept(p, t) && Stack(p, t) != [] && Last(Stack(p, t)).parent.Some?
    ensures Last(Stack(p, t)).parent.value < |p.runs| && Last(Stack(p, t)).parent.value != Last(Stack(p, t)).run
    ensures p.runs[Last(Stack(p, t)).parent.value].thread == t
  {
    var s := Stack(p, t);
    NestedPop(s);
    InnermostOnStack(Front(s), Last(s).runtime);
    var i :| 0 <= i < |s| - 1 && Front(s)[i].run == Last(s).parent.value;
    assert ActivationKept(p, t, s[i]) && s[i].run != s[|s| - 1].run;
  }

  lemma {:induction false} LeaveKept(p: Process, t: nat)
    requires Kept(p)
    ensures Kept(Next(p, Leave(t)))
  {
    var s := Stack(p, t);
    if s != [] && Last(s).at == Releasing(0) {
      assert ThreadKept(p, t) && ActivationKept(p, t, s[|s| - 1]);
      var a, q := Last(s), Next(p, Leave(t));
      if a.parent.Some? { ParentIsAnother(p, t); }
      assert Apart(p, q, t) && PoppedTo(p, q, t);
      PoppedKept(p, q, t);
    }
  }

  lemma PoppedThread(p: Process, q: Process, t: nat)
    requires ThreadKept(p, t) && PoppedTo(p, q, t)
    ensures ThreadKept(q, t)
  {
    var s, z := Stack(p, t), Stack(q, t);
    NestedPop(s);
    ChildrenPop(p.runs, s, q.runs);
    forall i | 0 <= i < |z| ensures ActivationKept(q, t, z[i]) {
      assert ActivationKept(p, t, s[i]) && s[i].run != s[|s| - 1].run;
    }
    forall runtime: nat ensures ScopesKept(q, t, runtime) { assert ScopesKept(p, t, runtime); }
  }

  lemma PoppedKept(p: Process, q: Process, t: nat)
    requires Kept(p) && PoppedTo(p, q, t) && Apart(p, q, t) && NoneTwice(q.roots)
    ensures Kept(q)
  {
    assert ThreadKept(p, t);
    PoppedThread(p, q, t);
    forall r | 0 <= r < |q.runs| && p.runs[r].thread == t ensures Settled(q, r) {
      PoppedSettled(p, q, t, r);
    }
    ApartKept(p, q, t);
  }

  lemma PoppedSettled(p: Process, q: Process, t: nat, r: nat)
    requires Kept(p) && Stack(p, t) != [] && Last(Stack(p, t)).at == Releasing(0) && Stack(q, t) == Front(Stack(p, t))
    requires r < |p.runs| == |q.runs| && p.runs[r].thread == t
    requires q.runs[r] == p.runs[r].(child := q.runs[r].child,
                                     release := if r == Last(Stack(p, t)).run then [] else p.runs[r].release)
    ensures Settled(q, r)
  {
    var s, z := Stack(p, t), Stack(q, t);
    assert ThreadKept(p, t) && ActivationKept(p, t, s[|s| - 1]) && Settled(p, r);
    if r == Last(s).run {
      assert p.runs[r].held[0..] == p.runs[r].held;
      assert Ended(q.runs[r]);
    } else if OnStack(p, r) {
      var i :| 0 <= i < |s| && s[i].run == r;
      assert z[i].run == r;
    }
  }

  /** Every action of every thread keeps it. */
  lemma {:induction false} NextKept(p: Process, step: Step)
    requires Kept(p)
    ensures Kept(Next(p, step))
  {
    match step
    case EnterRoot(t, runtime) => EnterRootKept(p, t, runtime);
    case EnterScope(t, r) => EnterScopeKept(p, t, r);
    case OpenArena(t) => OpenArenaKept(p, t);
    case GoLive(t) => GoLiveKept(p, t);
    case Expire(t) => ExpireKept(p, t);
    case CloseArena(t) => CloseArenaKept(p, t);
    case ReleaseOne(t) => ReleaseOneKept(p, t);
    case Leave(t) => LeaveKept(p, t);
    case Hold(t, r, item) => HoldKept(p, t, r, item);
  }

  /** So it stands after any actions of any threads, in any order. */
  lemma {:induction false} AlwaysKept(steps: seq<Step>)
    ensures Kept(After(START, steps))
  {
    if steps == [] {
      forall t ensures ThreadKept(START, t) {
        forall runtime: nat ensures ScopesKept(START, t, runtime) { }
      }
    } else {
      AlwaysKept(Front(steps));
      NextKept(After(START, Front(steps)), Last(steps));
    }
  }

  /** Handle safety over every interleaving: after any actions of any threads, a value that may be read
      is in a scope open on the thread asking, whatever is made is made in the innermost one, a scope
      about to be closed is the innermost of its thread's, and a run that is over has released what was
      held in it once each, the last held first, and had its scope closed before. */
  lemma SafeAlways(steps: seq<Step>, t: nat, r: nat)
    ensures var p := After(START, steps);
      && (Reading(p, t, r) ==> p.runs[r].token in Arena(p, p.runs[r].runtime, t))
      && (Making(p, t, r) ==>
            Arena(p, p.runs[r].runtime, t) != [] && Last(Arena(p, p.runs[r].runtime, t)) == p.runs[r].token)
      && (Stack(p, t) != [] && Last(Stack(p, t)).at.Expired? ==>
            Closes(p, Last(Stack(p, t)).runtime, t, Last(Stack(p, t)).token))
      && (r < |p.runs| && !OnStack(p, r) ==> !p.runs[r].live && p.runs[r].released == Reversed(p.runs[r].held))
      && (r < |p.runs| && p.runs[r].released != [] ==> !p.runs[r].live)
  {
    var p := After(START, steps);
    AlwaysKept(steps);
    if Reading(p, t, r) { ReadStandsInAnOpenScope(p, t, r); }
    if Making(p, t, r) { MadeStandsInTheInnermost(p, t, r); }
    if Stack(p, t) != [] && Last(Stack(p, t)).at.Expired? { CloseIsNeverRefused(p, t); }
    if r < |p.runs| {
      assert Settled(p, r);
      if OnStack(p, r) {
        var s := Stack(p, p.runs[r].thread);
        assert ThreadKept(p, p.runs[r].thread);
        var i :| 0 <= i < |s| && s[i].run == r;
        assert ActivationKept(p, p.runs[r].thread, s[i]);
      }
    }
  }

  /** Nothing held is released while the scope of its run is open: whatever was released is of a run
      whose call of `within` has closed its scope. */
  lemma ReleasedAfterClosing(steps: seq<Step>, t: nat, i: nat)
    requires var p := After(START, steps); i < |Stack(p, t)| && Holds(Stack(p, t)[i].at)
    ensures var p := After(START, steps); Stack(p, t)[i].run < |p.runs| && p.runs[Stack(p, t)[i].run].released == []
  {
    var p := After(START, steps);
    AlwaysKept(steps);
    assert ThreadKept(p, t);
    assert ActivationKept(p, t, Stack(p, t)[i]);
  }

  // ----- the package -----

  lemma {:induction false} InnermostPlace(s: seq<Activation>, runtime: nat) returns (i: nat)
    requires Innermost(s, runtime).Some?
    ensures i < |s| && InnermostAt(s, i, runtime) && s[i].run == Innermost(s, runtime).value
  {
    if Last(s).runtime == runtime {
      i := |s| - 1;
    } else {
      i := InnermostPlace(Front(s), runtime);
      assert forall j :: i < j < |s| - 1 ==> Front(s)[j] == s[j];
    }
  }

  /** A run with a child is not the innermost of its library's. */
  lemma ChildIsAbove(p: Process, t: nat, i: nat)
    requires ThreadKept(p, t) && i < |Stack(p, t)| && p.runs[Stack(p, t)[i].run].child.Some?
    ensures !InnermostAt(Stack(p, t), i, Stack(p, t)[i].runtime)
  {
    var _ := ChildOnStack(p, t, i);
  }

  /** A run's child is on the stack above it, of the same runtime's. */
  lemma ChildOnStack(p: Process, t: nat, i: nat) returns (j: nat)
    requires ThreadKept(p, t) && i < |Stack(p, t)| && p.runs[Stack(p, t)[i].run].child.Some?
    ensures i < j < |Stack(p, t)| && Stack(p, t)[j].run == p.runs[Stack(p, t)[i].run].child.value
    ensures Stack(p, t)[j].runtime == Stack(p, t)[i].runtime
  {
    var s := Stack(p, t);
    j :| i < j < |s| && s[j].parent == Some(s[i].run);
    assert OpenedFrom(s, j);
    var k := InnermostPlace(s[..j], s[j].runtime);
    assert s[..j][k] == s[k] && s[k].run == s[i].run;
  }

  /** The thread is inside the function the run was opened for, or in runs opened from there. */
  predicate RunningOn(s: seq<Activation>, r: nat) {
    exists i :: 0 <= i < |s| && s[i].run == r && s[i].at.Running?
  }

  /** And the last of its runtime's on the stack. */
  predicate InnermostOn(s: seq<Activation>, r: nat) {
    exists i :: 0 <= i < |s| && s[i].run == r && s[i].at.Running? && InnermostAt(s, i, s[i].runtime)
  }

  /** The one is running, the other is the innermost of the same runtime. */
  predicate WithinInnermost(s: seq<Activation>, v: nat, r: nat) {
    exists i, j :: 0 <= i < |s| && 0 <= j < |s| && s[i].run == v && s[i].at.Running? && s[j].run == r && s[j].at.Running?
      && s[i].runtime == s[j].runtime && InnermostAt(s, j, s[j].runtime)
  }

  /** What `Reading` answers, off the stack: a run is refused exactly where the thread is not inside it,
      and so a run that others were opened from is not refused while they run. */
  lemma ReadingIsRunning(p: Process, t: nat, r: nat)
    requires Kept(p)
    ensures Reading(p, t, r) <==> RunningOn(Stack(p, t), r)
  {
    var s := Stack(p, t);
    assert ThreadKept(p, t);
    if Reading(p, t, r) { ReadStandsInAnOpenScope(p, t, r); }
    if RunningOn(s, r) {
      var i :| 0 <= i < |s| && s[i].run == r && s[i].at.Running?;
      assert ActivationKept(p, t, s[i]);
    }
  }

  /** What `Making` answers, off the stack: the `child` field is `None` for the last activation of a runtime
      and for no other. */
  lemma MakingIsInnermost(p: Process, t: nat, r: nat)
    requires Kept(p)
    ensures Making(p, t, r) <==> InnermostOn(Stack(p, t), r)
  {
    var s := Stack(p, t);
    assert ThreadKept(p, t);
    ReadingIsRunning(p, t, r);
    if RunningOn(s, r) {
      var i :| 0 <= i < |s| && s[i].run == r && s[i].at.Running?;
      assert ActivationKept(p, t, s[i]);
      if Making(p, t, r) { ChildlessIsInnermost(p, t, i); }
      if InnermostOn(s, r) {
        var j :| 0 <= j < |s| && s[j].run == r && s[j].at.Running? && InnermostAt(s, j, s[j].runtime);
        if p.runs[r].child.Some? { ChildIsAbove(p, t, j); }
      }
    }
  }

  /** A value good for a computation in a run of its runtime, off the stack. */
  lemma HandedIsWithin(p: Process, t: nat, v: nat, r: nat)
    requires Kept(p)
    ensures Reading(p, t, v) && Making(p, t, r) && p.runs[v].runtime == p.runs[r].runtime <==> WithinInnermost(Stack(p, t), v, r)
  {
    var s := Stack(p, t);
    assert ThreadKept(p, t);
    ReadingIsRunning(p, t, v);
    MakingIsInnermost(p, t, r);
    if Reading(p, t, v) && Making(p, t, r) && p.runs[v].runtime == p.runs[r].runtime {
      var i :| 0 <= i < |s| && s[i].run == v && s[i].at.Running?;
      var j :| 0 <= j < |s| && s[j].run == r && s[j].at.Running? && InnermostAt(s, j, s[j].runtime);
      assert ActivationKept(p, t, s[i]) && ActivationKept(p, t, s[j]);
    }
    if WithinInnermost(s, v, r) {
      var i, j :| 0 <= i < |s| && 0 <= j < |s| && s[i].run == v && s[i].at.Running? && s[j].run == r && s[j].at.Running?
        && s[i].runtime == s[j].runtime && InnermostAt(s, j, s[j].runtime);
      assert RunningOn(s, v) && InnermostOn(s, r);
      assert ActivationKept(p, t, s[i]) && ActivationKept(p, t, s[j]);
    }
  }

  /** No thread is inside it any more, or yet. */
  ghost predicate RunningNowhere(p: Process, r: nat) {
    forall t :: !RunningOn(Stack(p, t), r)
  }

  lemma LiveIsRunning(p: Process, r: nat)
    requires Kept(p) && r < |p.runs|
    ensures !p.runs[r].live <==> RunningNowhere(p, r)
  {
    forall t ensures Reading(p, t, r) <==> RunningOn(Stack(p, t), r) { ReadingIsRunning(p, t, r); }
    if p.runs[r].live { assert Reading(p, p.runs[r].thread, r); }
  }

  /** A step is one thread's: the calls of `within` another thread is in, the scopes it has open and the
      runs it may read stay as they are. */
  lemma {:induction false} NextIsItsThreads(p: Process, step: Step, u: nat)
    requires Kept(p) && u != step.t
    ensures var q := Next(p, step);
      && Stack(q, u) == Stack(p, u) && (forall runtime :: Arena(q, runtime, u) == Arena(p, runtime, u))
      && forall r: nat :: RunningOn(Stack(p, u), r) ==> r < |p.runs| && r < |q.runs| && q.runs[r] == p.runs[r]
  {
    var q := Next(p, step);
    assert ThreadKept(p, u);
    assert Apart(p, q, step.t) by { NextApart(p, step); }
    forall r: nat | RunningOn(Stack(p, u), r) ensures r < |p.runs| && q.runs[r] == p.runs[r] {
      var i :| 0 <= i < |Stack(p, u)| && Stack(p, u)[i].run == r && Stack(p, u)[i].at.Running?;
      assert ActivationKept(p, u, Stack(p, u)[i]);
    }
  }

  lemma {:induction false} NextApart(p: Process, step: Step)
    requires Kept(p)
    ensures Apart(p, Next(p, step), step.t)
  {
    if !step.EnterRoot? && !step.EnterScope? && !step.Hold? { NextWithinApart(p, step); }
  }

  lemma {:induction false} NextWithinApart(p: Process, step: Step)
    requires Kept(p) && !step.EnterRoot? && !step.EnterScope? && !step.Hold?
    ensures Apart(p, NextWithin(p, step), step.t)
  {
    var t := step.t;
    assert ThreadKept(p, t);
    if Stack(p, t) != [] {
      var a := Stack(p, t)[|Stack(p, t)| - 1];
      assert ActivationKept(p, t, a);
      if a.parent.Some? { ParentIsAnother(p, t); }
    }
  }

  /** What `Ref.In` comes to: the address, or the first thing wrong. */
  datatype Handing = Given | NoValue | RunExpired | AnotherGoroutine | NotTheInnermost | ForeignHandle

  /** What the package keeps: the runs made and the root runs open. The scopes of each library's arena are
      the library's, and where each thread is, is for the proof alone. */
  class Package {
    var runs: seq<RunState>
    var roots: seq<Root>
    var arenas: map<Root, seq<nat>>
    var tokens: nat
    ghost var stacks: map<nat, seq<Activation>>

    ghost function Now(): Process
      reads this
    {
      Process(runs, roots, arenas, stacks, tokens)
    }

    ghost predicate Valid()
      reads this
    {
      Kept(Now())
    }

    /** The top activation of `t` is of run `r` and stands at `at`. */
    ghost predicate IsAt(t: nat, r: nat, at: Where)
      reads this
    {
      Stack(Now(), t) != [] && Last(Stack(Now(), t)).run == r < |runs| && Last(Stack(Now(), t)).at == at
    }

    constructor ()
      ensures Valid() && Now() == START
    {
      runs, roots, arenas, stacks, tokens := [], [], map[], map[], 0;
      new;
      AlwaysKept([]);
    }

    /** A root run, refused exactly where one of the runtime is open on the thread. */
    method EnterRun(t: nat, runtime: nat) returns (run: Option<nat>)
      requires Valid() && AtHost(Now(), t)
      modifies this
      ensures Valid() && Now() == Next(old(Now()), EnterRoot(t, runtime))
      ensures run.Some? <==> Innermost(Stack(old(Now()), t), runtime).None?
      ensures run.Some? ==> IsAt(t, run.value, Entered) && Innermost(Stack(Now(), t), runtime) == run
      ensures run.Some? ==> Front(Stack(Now(), t)) == Stack(old(Now()), t) && Last(Stack(Now(), t)).parent.None?
    {
      ghost var before := Now();
      NextKept(before, EnterRoot(t, runtime));
      assert ThreadKept(before, t) && ScopesKept(before, t, runtime);
      for i := 0 to |roots|
        invariant Root(runtime, t) !in roots[..i] && Now() == before
      {
        if roots[i] == Root(runtime, t) { return None; }
      }
      assert roots[..|roots|] == roots;
      roots := roots + [Root(runtime, t)];
      run := Some(|runs|);
      runs := runs + [RunState(runtime, t, 0, false, None, [], [], [])];
      stacks := stacks[t := Stack(before, t) + [Activation(run.value, runtime, 0, None, Entered)]];
      assert Now() == Next(before, EnterRoot(t, runtime));
    }

    /** A run inside run `r`: where `r` is live, on this thread, and the innermost of its library's there. */
    method EnterInner(t: nat, r: nat) returns (run: Option<nat>)
      requires Valid() && AtHost(Now(), t)
      modifies this
      ensures Valid() && Now() == Next(old(Now()), EnterScope(t, r))
      ensures run.Some? <==> InnermostOn(Stack(old(Now()), t), r)
      ensures run.Some? ==> IsAt(t, run.value, Entered) && r < |runs| && runs[r].child == run
      ensures run.Some? ==> Front(Stack(Now(), t)) == Stack(old(Now()), t) && Last(Stack(Now(), t)).parent == Some(r)
    {
      ghost var before := Now();
      NextKept(before, EnterScope(t, r));
      MakingIsInnermost(before, t, r);
      if r >= |runs| || !runs[r].live || runs[r].thread != t { return None; }
      if runs[r].child.Some? { return None; }
      var inner := |runs|;
      runs := runs[r := runs[r].(child := Some(inner))];
      runs := runs + [RunState(runs[r].runtime, t, 0, false, None, [], [], [])];
      stacks := stacks[t := Stack(before, t) + [Activation(inner, runs[r].runtime, 0, Some(r), Entered)]];
      run := Some(inner);
      assert Now() == Next(before, EnterScope(t, r));
    }

    /** The run's scope opened in the library's arena. */
    method OpenArena(t: nat, r: nat) returns (scope: nat)
      requires Valid() && IsAt(t, r, Entered)
      modifies this
      ensures Valid() && Now() == Next(old(Now()), Step.OpenArena(t))
      ensures IsAt(t, r, Opened) && runs[r].token == scope
      ensures Arena(Now(), runs[r].runtime, t) == Arena(old(Now()), runs[r].runtime, t) + [scope]
    {
      ghost var before := Now();
      NextKept(before, Step.OpenArena(t));
      TopIs(before, t);
      var key := Root(runs[r].runtime, t);
      scope := tokens;
      tokens := tokens + 1;
      arenas := arenas[key := (if key in arenas then arenas[key] else []) + [scope]];
      runs := runs[r := runs[r].(token := scope)];
      stacks := stacks[t := Front(Stack(before, t)) + [Last(Stack(before, t)).(token := scope, at := Opened)]];
      assert Now() == Next(before, Step.OpenArena(t));
    }

    method GoLive(t: nat, r: nat)
      requires Valid() && IsAt(t, r, Opened)
      modifies this
      ensures Valid() && Now() == Next(old(Now()), Step.GoLive(t))
      ensures IsAt(t, r, Running) && Reading(Now(), t, r) && AtHost(Now(), t)
      ensures Front(Stack(Now(), t)) == Front(Stack(old(Now()), t))
    {
      ghost var before := Now();
      NextKept(before, Step.GoLive(t));
      TopIs(before, t);
      runs := runs[r := runs[r].(live := true)];
      stacks := stacks[t := Front(Stack(before, t)) + [Last(Stack(before, t)).(at := Running)]];
      assert Now() == Next(before, Step.GoLive(t));
    }

    /** The function the run was opened for came back. */
    method Expire(t: nat, r: nat)
      requires Valid() && IsAt(t, r, Running)
      modifies this
      ensures Valid() && Now() == Next(old(Now()), Step.Expire(t))
      ensures IsAt(t, r, Expired) && forall u: nat :: !Reading(Now(), u, r)
    {
      ghost var before := Now();
      NextKept(before, Step.Expire(t));
      TopIs(before, t);
      runs := runs[r := runs[r].(live := false)];
      stacks := stacks[t := Front(Stack(before, t)) + [Last(Stack(before, t)).(at := Expired)]];
      assert Now() == Next(before, Step.Expire(t));
    }

    /** The run's scope closed: the library never refuses it. */
    method Close(t: nat, r: nat) returns (closed: bool)
      requires Valid() && IsAt(t, r, Expired)
      modifies this
      ensures Valid() && closed && Now() == Next(old(Now()), CloseArena(t))
      ensures IsAt(t, r, Releasing(|runs[r].release|))
      ensures Arena(Now(), runs[r].runtime, t) + [runs[r].token] == Arena(old(Now()), runs[r].runtime, t)
    {
      ghost var before := Now();
      NextKept(before, CloseArena(t));
      CloseIsNeverRefused(before, t);
      TopIs(before, t);
      var key, scope := Root(runs[r].runtime, t), runs[r].token;
      if key !in arenas || arenas[key] == [] || Last(arenas[key]) != scope { return false; }
      arenas := arenas[key := Front(arenas[key])];
      stacks := stacks[t := Front(Stack(before, t)) + [Last(Stack(before, t)).(at := Releasing(|runs[r].release|))]];
      closed := true;
      assert Now() == Next(before, CloseArena(t));
    }

    /** What the run held released, one call at a time, the last held first: all of it, once each. */
    method Release(t: nat, r: nat)
      requires Valid() && r < |runs| && IsAt(t, r, Releasing(|runs[r].release|))
      modifies this
      ensures Valid() && IsAt(t, r, Releasing(0))
      ensures runs[r].held == old(runs)[r].held && runs[r].released == Reversed(runs[r].held)
      ensures roots == old(roots) && arenas == old(arenas)
    {
      var i := |runs[r].release|;
      ghost var held := runs[r].held;
      TopIs(Now(), t);
      while i > 0
        invariant Valid() && 0 <= i && IsAt(t, r, Releasing(i))
        invariant runs[r].held == held && roots == old(roots) && arenas == old(arenas)
      {
        TopIs(Now(), t);
        i := i - 1;
        ReleaseAt(t, r, i);
      }
      TopIs(Now(), t);
      assert held[0..] == held;
    }

    method ReleaseAt(t: nat, r: nat, i: nat)
      requires Valid() && IsAt(t, r, Releasing(i + 1))
      modifies this
      ensures Valid() && Now() == Next(old(Now()), ReleaseOne(t)) && IsAt(t, r, Releasing(i))
      ensures runs[r].held == old(runs)[r].held && roots == old(roots) && arenas == old(arenas)
    {
      ghost var before := Now();
      NextKept(before, ReleaseOne(t));
      TopIs(before, t);
      runs := runs[r := runs[r].(released := runs[r].released + [runs[r].release[i]])];
      stacks := stacks[t := Front(Stack(before, t)) + [Last(Stack(before, t)).(at := Releasing(i))]];
      assert Now() == Next(before, ReleaseOne(t));
    }

    /** A run over: nothing it held is kept, and the run it was opened from is the innermost again, or,
        where it was a root run, a root run of the runtime may be opened on the thread again. */
    method Leave(t: nat, r: nat, parent: Option<nat>)
      requires Valid() && IsAt(t, r, Releasing(0)) && Last(Stack(Now(), t)).parent == parent
      modifies this
      ensures Valid() && Now() == Next(old(Now()), Step.Leave(t))
      ensures runs[r].release == [] && !runs[r].live
      ensures Stack(Now(), t) == Front(Stack(old(Now()), t)) && AtHost(Now(), t)
      ensures parent == Innermost(Stack(Now(), t), runs[r].runtime)
      ensures parent.Some? ==> Making(Now(), t, parent.value)
      ensures parent.None? ==> Root(runs[r].runtime, t) !in roots
    {
      ghost var before := Now();
      NextKept(before, Step.Leave(t));
      TopIs(before, t);
      assert ThreadKept(before, t);
      if parent.Some? { ParentIsAnother(before, t); }
      runs := runs[r := runs[r].(release := [])];
      stacks := stacks[t := Front(Stack(before, t))];
      if parent.Some? {
        runs := runs[parent.value := runs[parent.value].(child := None)];
      } else {
        LeaveRoot(Root(runs[r].runtime, t));
      }
      assert Now() == Next(before, Step.Leave(t));
      LeftIsInnermost(before, t);
    }

    /** The first root run under the key taken out. */
    method LeaveRoot(key: Root)
      modifies this`roots
      ensures roots == Without(old(roots), key)
    {
      for i := 0 to |roots|
        invariant roots == old(roots) && key !in roots[..i]
      {
        if roots[i] == key {
          WithoutAt(roots, i);
          roots := roots[..i] + roots[i + 1..];
          return;
        }
      }
      assert roots[..|roots|] == roots;
      WithoutNone(roots, key);
    }

    /** One more entry for `Release` to call. */
    method HoldItem(t: nat, r: nat, item: int)
      requires Valid() && AtHost(Now(), t) && RunningOn(Stack(Now(), t), r) && r < |runs|
      modifies this
      ensures Valid() && Now() == Next(old(Now()), Hold(t, r, item))
      ensures runs[r].held == old(runs)[r].held + [item]
    {
      ghost var before := Now();
      NextKept(before, Hold(t, r, item));
      ReadingIsRunning(before, t, r);
      runs := runs[r := runs[r].(release := runs[r].release + [item], held := runs[r].held + [item])];
      assert Now() == Next(before, Hold(t, r, item));
    }

    /** The run a host is lent for one of its own (`innermost`): from child to child, to the innermost of the
        runtime's on the thread. */
    method InnermostOf(t: nat, r: nat) returns (inner: nat)
      requires Valid() && r < |runs| && RunningOn(Stack(Now(), t), r)
      ensures inner < |runs| && runs[inner].runtime == runs[r].runtime
      ensures Innermost(Stack(Now(), t), runs[r].runtime) == Some(inner)
    {
      ghost var s := Stack(Now(), t);
      assert ThreadKept(Now(), t);
      ghost var i: nat :| i < |s| && s[i].run == r && s[i].at.Running?;
      inner := r;
      assert ActivationKept(Now(), t, s[i]);
      while runs[inner].child.Some?
        invariant i < |s| && s[i].run == inner < |runs| && runs[inner].runtime == runs[r].runtime
        decreases |s| - i
      {
        ghost var j: nat := ChildOnStack(Now(), t, i);
        assert ActivationKept(Now(), t, s[i]) && ActivationKept(Now(), t, s[j]);
        inner, i := runs[inner].child.value, j;
      }
      assert ActivationKept(Now(), t, s[i]);
      ChildlessIsInnermost(Now(), t, i);
      InnermostIs(s, i, runs[r].runtime);
    }

    /** `Ref.In`: a value is given where the thread is inside the value's own run and the run it goes to is the
        innermost of the same runtime there, and then its scope is open in the arena that run allocates in.
        What is refused is refused for the first thing wrong, the value's run first. */
    method Handed(t: nat, v: Option<nat>, r: nat) returns (answer: Handing)
      requires Valid() && r < |runs| && (v.Some? ==> v.value < |runs|)
      ensures answer.NoValue? <==> v.None?
      ensures v.Some? ==> (answer.Given? <==> WithinInnermost(Stack(Now(), t), v.value, r))
      ensures v.Some? ==> (answer.ForeignHandle? <==>
        RunningOn(Stack(Now(), t), v.value) && InnermostOn(Stack(Now(), t), r) && !WithinInnermost(Stack(Now(), t), v.value, r))
      ensures v.Some? ==> (answer.NotTheInnermost? <==>
        RunningOn(Stack(Now(), t), v.value) && RunningOn(Stack(Now(), t), r) && !InnermostOn(Stack(Now(), t), r))
      ensures v.Some? ==> (answer.RunExpired? <==>
        RunningNowhere(Now(), v.value) || (RunningOn(Stack(Now(), t), v.value) && RunningNowhere(Now(), r)))
      ensures answer.Given? ==>
        && v.Some? && runs[v.value].token in Arena(Now(), runs[r].runtime, t)
        && Arena(Now(), runs[r].runtime, t) != [] && Last(Arena(Now(), runs[r].runtime, t)) == runs[r].token
    {
      if v.None? { return NoValue; }
      ReadingIsRunning(Now(), t, v.value);
      ReadingIsRunning(Now(), t, r);
      MakingIsInnermost(Now(), t, r);
      HandedIsWithin(Now(), t, v.value, r);
      LiveIsRunning(Now(), v.value);
      LiveIsRunning(Now(), r);
      if !runs[v.value].live { return RunExpired; }
      if runs[v.value].thread != t { return AnotherGoroutine; }
      if !runs[r].live { return RunExpired; }
      if runs[r].thread != t { return AnotherGoroutine; }
      if runs[r].child.Some? { return NotTheInnermost; }
      if runs[v.value].runtime != runs[r].runtime { return ForeignHandle; }
      HandedStandsInAnOpenScope(Now(), t, v.value, r);
      MadeStandsInTheInnermost(Now(), t, r);
      answer := Given;
    }
  }

  lemma {:induction false} WithoutAt(roots: seq<Root>, i: nat)
    requires i < |roots| && roots[i] !in roots[..i]
    ensures Without(roots, roots[i]) == roots[..i] + roots[i + 1..]
  {
    if i > 0 {
      assert roots[0] == roots[..i][0];
      assert roots[1..][..i - 1] == roots[..i][1..] && roots[1..][i..] == roots[i + 1..];
      WithoutAt(roots[1..], i - 1);
    }
  }

  lemma {:induction false} WithoutNone(roots: seq<Root>, root: Root)
    requires root !in roots
    ensures Without(roots, root) == roots
  {
    if roots != [] { WithoutNone(roots[1..], root); }
  }

  /** A run opened from another left, and the other is the innermost again. */
  lemma LeftIsInnermost(p: Process, t: nat)
    requires Kept(p) && Stack(p, t) != [] && Last(Stack(p, t)).at == Releasing(0)
    ensures var q, a := Next(p, Leave(t)), Last(Stack(p, t));
      && a.parent == Innermost(Stack(q, t), a.runtime)
      && (a.parent.Some? ==> Making(q, t, a.parent.value))
      && (a.parent.None? ==> Root(a.runtime, t) !in q.roots)
  {
    var s, a, q := Stack(p, t), Last(Stack(p, t)), Next(p, Leave(t));
    TopIs(p, t);
    assert ThreadKept(p, t);
    NestedPop(s);
    assert Stack(q, t) == Front(s);
    if a.parent.Some? {
      ParentIsAnother(p, t);
      var i := InnermostPlace(Front(s), a.runtime);
      assert Front(s)[i] == s[i] && ActivationKept(p, t, s[i]);
    }
  }
}
