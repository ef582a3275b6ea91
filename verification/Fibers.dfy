/** Runs of a PHP process over every interleaving of its fibers (`open`, `close`, `innermostHere` in
    bindings/php/runtime/src/NativeLibrary.php, bindings/php/runtime/src/Session.php, `run` and
    `innermostOf` in bindings/php/runtime/src/Binding.php). The fibers are one thread's, so they share
    each library's arena, and a fiber is left only in the body of a run or outside any. */
module Fibers {
  import opened Options

  /** A fiber, or none where the program's main flow is going. */
  type Fiber = Option<nat>

  datatype Session = Session(library: nat, fiber: Fiber, order: nat, active: bool)

  /** A library's open runs, the innermost last, and the fiber they are on. */
  datatype Library = Library(open: seq<nat>, holder: Fiber)

  /** A call of `run` going on: its session, and the scope it opened. */
  datatype Activation = Activation(session: nat, library: nat, token: nat)

  datatype Process = Process(sessions: seq<Session>, open: map<nat, seq<nat>>, holders: map<nat, Fiber>,
                             scopes: map<nat, seq<nat>>, stacks: map<Fiber, seq<Activation>>, started: nat, tokens: nat)

  const START: Process := Process([], map[], map[], map[], map[], 0, 0)

  function LibraryOf(p: Process, l: nat): Library {
    Library(if l in p.open then p.open[l] else [], if l in p.holders then p.holders[l] else None)
  }

  function Scopes(p: Process, l: nat): seq<nat> {
    if l in p.scopes then p.scopes[l] else []
  }

  function Stack(p: Process, f: Fiber): seq<Activation> {
    if f in p.stacks then p.stacks[f] else []
  }

  function Last<T>(s: seq<T>): T
    requires s != []
  {
    s[|s| - 1]
  }

  function Front<T>(s: seq<T>): seq<T>
    requires s != []
  {
    s[..|s| - 1]
  }

  // ----- steps -----

  /** A run asked for on fiber `f`: refused, with no scope opened, where one of the library is going on
      another fiber. */
  predicate Refused(p: Process, f: Fiber, l: nat) {
    LibraryOf(p, l).open != [] && f != LibraryOf(p, l).holder
  }

  function Start(p: Process, f: Fiber, l: nat): Process {
    if Refused(p, f, l) then p
    else
      var session := |p.sessions|;
      Process(p.sessions + [Session(l, f, p.started + 1, true)],
              p.open[l := LibraryOf(p, l).open + [session]], p.holders[l := f],
              p.scopes[l := Scopes(p, l) + [p.tokens]],
              p.stacks[f := Stack(p, f) + [Activation(session, l, p.tokens)]],
              p.started + 1, p.tokens + 1)
  }

  /** Whether the run is its library's innermost, which is the only one a library ends. */
  predicate Ends(p: Process, a: Activation) {
    var open := LibraryOf(p, a.library).open;
    open != [] && Last(open) == a.session && a.session < |p.sessions|
  }

  /** The token of the activation is on top of its library's scopes, which is when closing succeeds. */
  predicate Closes(p: Process, a: Activation) {
    Scopes(p, a.library) != [] && Last(Scopes(p, a.library)) == a.token
  }

  /** The innermost run of a fiber ended, its body having returned or thrown. */
  function End(p: Process, f: Fiber): Process {
    if Stack(p, f) == [] || !Ends(p, Last(Stack(p, f))) || !Closes(p, Last(Stack(p, f))) then p
    else
      var a := Last(Stack(p, f));
      var open := Front(LibraryOf(p, a.library).open);
      p.(sessions := p.sessions[a.session := p.sessions[a.session].(active := false)],
         open := p.open[a.library := open],
         holders := if open == [] then p.holders[a.library := None] else p.holders,
         scopes := p.scopes[a.library := Front(Scopes(p, a.library))],
         stacks := p.stacks[f := Front(Stack(p, f))])
  }

  datatype Step = StartRun(f: Fiber, l: nat) | EndRun(f: Fiber)

  function Next(p: Process, step: Step): Process {
    match step
    case StartRun(f, l) => Start(p, f, l)
    case EndRun(f) => End(p, f)
  }

  function After(p: Process, steps: seq<Step>): Process {
    if steps == [] then p else Next(After(p, Front(steps)), Last(steps))
  }

  /** `Session::ffi`, asked on fiber `f`. */
  predicate Usable(p: Process, f: Fiber, s: nat) {
    s < |p.sessions| && p.sessions[s].active && p.sessions[s].fiber == f
  }

  /** `Session::call`. */
  predicate Callable(p: Process, f: Fiber, s: nat) {
    && Usable(p, f, s)
    && var open := LibraryOf(p, p.sessions[s].library).open; open != [] && Last(open) == s
  }

  /** `innermostHere`. */
  function InnermostHere(p: Process, f: Fiber, l: nat): Option<nat> {
    var it := LibraryOf(p, l);
    if it.open != [] && it.holder == f then Some(Last(it.open)) else None
  }

  // ----- what every step keeps -----

  /** The sessions of a library's runs on a stack, and their scopes, in order. */
  function SessionsOf(s: seq<Activation>, l: nat): seq<nat> {
    if s == [] then [] else SessionsOf(Front(s), l) + if Last(s).library == l then [Last(s).session] else []
  }

  function TokensOf(s: seq<Activation>, l: nat): seq<nat> {
    if s == [] then [] else TokensOf(Front(s), l) + if Last(s).library == l then [Last(s).token] else []
  }

  predicate Increasing(p: Process, s: seq<Activation>) {
    && (forall i :: 0 <= i < |s| ==> s[i].session < |p.sessions|)
    && (forall i, j :: 0 <= i < j < |s| ==> p.sessions[s[i].session].order < p.sessions[s[j].session].order)
  }

  predicate ActivationKept(p: Process, f: Fiber, a: Activation) {
    && a.session < |p.sessions|
    && var it := p.sessions[a.session]; it.active && it.fiber == f && it.library == a.library && it.order <= p.started
  }

  ghost predicate FiberKept(p: Process, f: Fiber) {
    && (forall i :: 0 <= i < |Stack(p, f)| ==> ActivationKept(p, f, Stack(p, f)[i]))
    && Increasing(p, Stack(p, f))
    && (forall l: nat :: RunsKept(p, f, l))
  }

  /** A library's open runs are one fiber's, and its scopes theirs. */
  predicate RunsKept(p: Process, f: Fiber, l: nat) {
    var it := LibraryOf(p, l);
    if it.open != [] && it.holder == f then
      it.open == SessionsOf(Stack(p, f), l) && Scopes(p, l) == TokensOf(Stack(p, f), l)
    else SessionsOf(Stack(p, f), l) == [] && TokensOf(Stack(p, f), l) == []
  }

  predicate OnStack(p: Process, s: nat)
    requires s < |p.sessions|
  {
    exists i :: 0 <= i < |Stack(p, p.sessions[s].fiber)| && Stack(p, p.sessions[s].fiber)[i].session == s
  }

  predicate Settled(p: Process, s: nat)
    requires s < |p.sessions|
  {
    p.sessions[s].active ==> OnStack(p, s)
  }

  ghost predicate Kept(p: Process) {
    && (forall f :: FiberKept(p, f))
    && (forall s :: 0 <= s < |p.sessions| ==> Settled(p, s))
    && (forall l: nat :: IdleKept(p, l))
  }

  /** A library with no run going has no scope open. */
  predicate IdleKept(p: Process, l: nat) {
    LibraryOf(p, l).open == [] ==> Scopes(p, l) == []
  }

  // ----- reading it -----

  lemma {:induction false} SessionOn(s: seq<Activation>, l: nat, i: nat)
    requires i < |s| && s[i].library == l
    ensures s[i].session in SessionsOf(s, l) && s[i].token in TokensOf(s, l)
  {
    if i < |s| - 1 { SessionOn(Front(s), l, i); }
  }

  /** A run ends as its library's innermost and its scope closes as the arena's innermost, so neither is
      ever refused. */
  lemma EndIsNeverRefused(p: Process, f: Fiber)
    requires Kept(p) && Stack(p, f) != []
    ensures Ends(p, Last(Stack(p, f))) && Closes(p, Last(Stack(p, f)))
    ensures LibraryOf(p, Last(Stack(p, f)).library).holder == f
  {
    var s := Stack(p, f);
    var l := Last(s).library;
    assert FiberKept(p, f) && RunsKept(p, f, l) && ActivationKept(p, f, s[|s| - 1]);
    SessionOn(s, l, |s| - 1);
  }

  /** A session is active exactly where it is on its library's stack, and that stack is on its fiber. */
  lemma ActiveIsOpen(p: Process, s: nat)
    requires Kept(p) && s < |p.sessions|
    ensures var l := p.sessions[s].library;
      && (p.sessions[s].active ==> s in LibraryOf(p, l).open && LibraryOf(p, l).holder == p.sessions[s].fiber)
      && (s in LibraryOf(p, l).open ==> p.sessions[s].active)
  {
    var l, f := p.sessions[s].library, p.sessions[s].fiber;
    if p.sessions[s].active {
      assert Settled(p, s) && FiberKept(p, f) && RunsKept(p, f, l);
      var i :| 0 <= i < |Stack(p, f)| && Stack(p, f)[i].session == s;
      assert ActivationKept(p, f, Stack(p, f)[i]);
      SessionOn(Stack(p, f), l, i);
    }
    if s in LibraryOf(p, l).open {
      var g := LibraryOf(p, l).holder;
      assert FiberKept(p, g) && RunsKept(p, g, l);
      var i := SessionAt(Stack(p, g), l, s);
      assert ActivationKept(p, g, Stack(p, g)[i]);
    }
  }

  lemma {:induction false} SessionAt(s: seq<Activation>, l: nat, session: nat) returns (i: nat)
    requires session in SessionsOf(s, l)
    ensures i < |s| && s[i].session == session && s[i].library == l
  {
    if Last(s).library == l && Last(s).session == session {
      i := |s| - 1;
    } else {
      i := SessionAt(Front(s), l, session);
    }
  }

  /** The open runs of a library were opened in the order they stand in. */
  lemma OpenInOrder(p: Process, l: nat, i: nat, j: nat)
    requires Kept(p) && i < j < |LibraryOf(p, l).open|
    ensures var open := LibraryOf(p, l).open;
      open[i] < |p.sessions| && open[j] < |p.sessions| && p.sessions[open[i]].order < p.sessions[open[j]].order
  {
    var f := LibraryOf(p, l).holder;
    assert FiberKept(p, f) && RunsKept(p, f, l);
    SessionsInOrder(p, Stack(p, f), l, i, j);
  }

  lemma {:induction false} SessionsInOrder(p: Process, s: seq<Activation>, l: nat, i: nat, j: nat)
    requires Increasing(p, s) && i < j < |SessionsOf(s, l)|
    ensures var open := SessionsOf(s, l);
      open[i] < |p.sessions| && open[j] < |p.sessions| && p.sessions[open[i]].order < p.sessions[open[j]].order
  {
    var front := SessionsOf(Front(s), l);
    if j < |front| {
      SessionsInOrder(p, Front(s), l, i, j);
    } else {
      var at := SessionAt(Front(s), l, front[i]);
      assert s[at].session == front[i] && Last(s) == s[|s| - 1];
    }
  }

  // ----- a run opened, and a run ended -----

  ghost predicate Apart(p: Process, q: Process, f: Fiber, l: nat) {
    && |p.sessions| <= |q.sessions| && p.started <= q.started
    && (forall s :: 0 <= s < |p.sessions| && p.sessions[s].fiber != f ==> q.sessions[s] == p.sessions[s])
    && (forall g :: g != f ==> Stack(q, g) == Stack(p, g))
    && (forall m: nat :: m != l ==> LibraryOf(q, m) == LibraryOf(p, m) && Scopes(q, m) == Scopes(p, m))
  }

  /** Another fiber's runs, where the library acted on is no other fiber's. */
  lemma OthersKept(p: Process, q: Process, f: Fiber, l: nat, g: Fiber)
    requires FiberKept(p, g) && g != f && Apart(p, q, f, l)
    requires LibraryOf(p, l).open == [] || LibraryOf(p, l).holder == f
    requires LibraryOf(q, l).open == [] || LibraryOf(q, l).holder == f
    ensures FiberKept(q, g)
  {
    var s := Stack(p, g);
    forall i | 0 <= i < |s| ensures q.sessions[s[i].session] == p.sessions[s[i].session] && ActivationKept(q, g, s[i]) {
      assert ActivationKept(p, g, s[i]);
    }
    forall m: nat ensures RunsKept(q, g, m) { assert RunsKept(p, g, m); }
  }

  lemma StartFiber(p: Process, f: Fiber, l: nat)
    requires FiberKept(p, f) && !Refused(p, f, l) && IdleKept(p, l)
    ensures FiberKept(Start(p, f, l), f)
  {
    var q := Start(p, f, l);
    var s, z := Stack(p, f), Stack(q, f);
    assert Front(z) == s;
    forall i | 0 <= i < |z| ensures ActivationKept(q, f, z[i]) {
      if i < |s| { assert ActivationKept(p, f, s[i]); }
    }
    forall i, j | 0 <= i < j < |z| ensures q.sessions[z[i].session].order < q.sessions[z[j].session].order {
      assert ActivationKept(p, f, s[i]);
    }
    forall m: nat ensures RunsKept(q, f, m) { StartRuns(p, f, l, m); }
  }

  lemma StartRuns(p: Process, f: Fiber, l: nat, m: nat)
    requires !Refused(p, f, l) && IdleKept(p, l) && RunsKept(p, f, m)
    ensures RunsKept(Start(p, f, l), f, m)
  {
    var q := Start(p, f, l);
    assert Front(Stack(q, f)) == Stack(p, f);
  }

  lemma {:induction false} StartKept(p: Process, f: Fiber, l: nat)
    requires Kept(p)
    ensures Kept(Start(p, f, l))
  {
    if !Refused(p, f, l) {
      var q := Start(p, f, l);
      assert FiberKept(p, f) && IdleKept(p, l);
      StartFiber(p, f, l);
      forall g ensures FiberKept(q, g) {
        assert FiberKept(p, g);
        if g != f { OthersKept(p, q, f, l, g); }
      }
      forall s | 0 <= s < |q.sessions| ensures Settled(q, s) { StartSettled(p, f, l, s); }
      forall m: nat ensures IdleKept(q, m) { assert IdleKept(p, m); }
    }
  }

  lemma StartSettled(p: Process, f: Fiber, l: nat, s: nat)
    requires Kept(p) && !Refused(p, f, l) && s <= |p.sessions|
    ensures Settled(Start(p, f, l), s)
  {
    var q := Start(p, f, l);
    var z := Stack(q, f);
    if s == |p.sessions| {
      assert z[|z| - 1].session == s;
    } else {
      assert Settled(p, s);
      if p.sessions[s].active {
        var g := p.sessions[s].fiber;
        var i :| 0 <= i < |Stack(p, g)| && Stack(p, g)[i].session == s;
        assert Stack(q, g)[i].session == s;
      }
    }
  }

  lemma EndFiber(p: Process, f: Fiber)
    requires FiberKept(p, f) && Stack(p, f) != [] && Ends(p, Last(Stack(p, f))) && Closes(p, Last(Stack(p, f)))
    requires LibraryOf(p, Last(Stack(p, f)).library).holder == f
    ensures FiberKept(End(p, f), f)
  {
    var q := End(p, f);
    var s, z := Stack(p, f), Stack(q, f);
    var a := Last(s);
    forall i | 0 <= i < |z| ensures ActivationKept(q, f, z[i]) && q.sessions[z[i].session] == p.sessions[z[i].session] {
      assert ActivationKept(p, f, s[i]) && s[i].session != s[|s| - 1].session;
    }
    forall m: nat ensures RunsKept(q, f, m) {
      assert RunsKept(p, f, m);
      EndRuns(p, f, m);
    }
  }

  lemma EndRuns(p: Process, f: Fiber, m: nat)
    requires RunsKept(p, f, m) && Stack(p, f) != [] && Ends(p, Last(Stack(p, f))) && Closes(p, Last(Stack(p, f)))
    requires LibraryOf(p, Last(Stack(p, f)).library).holder == f
    ensures RunsKept(End(p, f), f, m)
  {
    var z, a := Stack(End(p, f), f), Last(Stack(p, f));
    if m == a.library {
      assert Front(SessionsOf(z, m) + [a.session]) == SessionsOf(z, m) && Front(TokensOf(z, m) + [a.token]) == TokensOf(z, m);
      SameLength(z, m);
    }
  }

  lemma {:induction false} SameLength(s: seq<Activation>, l: nat)
    ensures |SessionsOf(s, l)| == |TokensOf(s, l)|
  {
    if s != [] { SameLength(Front(s), l); }
  }

  lemma {:induction false} EndKept(p: Process, f: Fiber)
    requires Kept(p)
    ensures Kept(End(p, f))
  {
    if Stack(p, f) != [] {
      EndIsNeverRefused(p, f);
      var q, a := End(p, f), Last(Stack(p, f));
      assert FiberKept(p, f) && RunsKept(p, f, a.library) && ActivationKept(p, f, Stack(p, f)[|Stack(p, f)| - 1]);
      EndFiber(p, f);
      forall g ensures FiberKept(q, g) {
        assert FiberKept(p, g);
        if g != f { OthersKept(p, q, f, a.library, g); }
      }
      forall s | 0 <= s < |q.sessions| ensures Settled(q, s) { EndSettled(p, f, s); }
      forall l: nat ensures IdleKept(q, l) { EndIdle(p, f, l); }
    }
  }

  lemma EndIdle(p: Process, f: Fiber, l: nat)
    requires Kept(p) && Stack(p, f) != [] && Ends(p, Last(Stack(p, f))) && Closes(p, Last(Stack(p, f)))
    requires LibraryOf(p, Last(Stack(p, f)).library).holder == f
    ensures IdleKept(End(p, f), l)
  {
    assert FiberKept(p, f) && RunsKept(p, f, Last(Stack(p, f)).library) && IdleKept(p, l);
    SameLength(Stack(p, f), Last(Stack(p, f)).library);
  }

  lemma EndSettled(p: Process, f: Fiber, s: nat)
    requires Kept(p) && Stack(p, f) != [] && Ends(p, Last(Stack(p, f))) && Closes(p, Last(Stack(p, f))) && s < |p.sessions|
    ensures Settled(End(p, f), s)
  {
    var q, a := End(p, f), Last(Stack(p, f));
    assert Settled(p, s);
    if s != a.session && p.sessions[s].active {
      var g := p.sessions[s].fiber;
      var i :| 0 <= i < |Stack(p, g)| && Stack(p, g)[i].session == s;
      assert Stack(q, g)[i].session == s;
    }
  }

  /** Whatever fibers start and end runs, in whatever order. */
  lemma {:induction false} AlwaysKept(steps: seq<Step>)
    ensures Kept(After(START, steps))
  {
    if steps == [] {
      forall f ensures FiberKept(START, f) {
        forall l: nat ensures RunsKept(START, f, l) { }
      }
    } else {
      AlwaysKept(Front(steps));
      var p := After(START, Front(steps));
      match Last(steps)
      case StartRun(f, l) => StartKept(p, f, l);
      case EndRun(f) => EndKept(p, f);
    }
  }

  /** A session that may be used is of a run going on the fiber asking, whose scope is open, and one a
      computation may be started through is of the innermost, whose scope is the arena's innermost. */
  lemma UsableStands(p: Process, f: Fiber, s: nat) returns (i: nat)
    requires Kept(p) && Usable(p, f, s)
    ensures i < |Stack(p, f)| && Stack(p, f)[i].session == s && Stack(p, f)[i].library == p.sessions[s].library
    ensures Stack(p, f)[i].token in Scopes(p, p.sessions[s].library)
    ensures Callable(p, f, s) ==>
      Scopes(p, p.sessions[s].library) != [] && Last(Scopes(p, p.sessions[s].library)) == Stack(p, f)[i].token
  {
    var l := p.sessions[s].library;
    ActiveIsOpen(p, s);
    assert FiberKept(p, f) && RunsKept(p, f, l);
    i := SessionAt(Stack(p, f), l, s);
    SessionOn(Stack(p, f), l, i);
    if Callable(p, f, s) { LastSession(p, Stack(p, f), l, i); }
  }

  lemma {:induction false} LastSession(p: Process, s: seq<Activation>, l: nat, i: nat)
    requires Increasing(p, s) && i < |s| && s[i].library == l
    requires SessionsOf(s, l) != [] && Last(SessionsOf(s, l)) == s[i].session
    ensures TokensOf(s, l) != [] && Last(TokensOf(s, l)) == s[i].token
  {
    if Last(s).library == l {
      assert Last(SessionsOf(s, l)) == s[|s| - 1].session && i == |s| - 1;
    } else {
      LastSession(p, Front(s), l, i);
    }
  }

  /** Fiber discipline over every interleaving of `steps`: `order` strictly increases along a library's
      open runs, `active` coincides with membership in them and their `fiber` with the holder, and the
      top of any fiber's stack can be ended and its scope closed. */
  lemma DisciplineAlways(steps: seq<Step>, f: Fiber, l: nat, s: nat, i: nat, j: nat)
    ensures var p := After(START, steps); var open := LibraryOf(p, l).open;
      && (i < j < |open| ==>
            open[i] < |p.sessions| && open[j] < |p.sessions| && p.sessions[open[i]].order < p.sessions[open[j]].order)
      && (s in open ==> s < |p.sessions| && p.sessions[s].active && p.sessions[s].fiber == LibraryOf(p, l).holder)
      && (s < |p.sessions| && p.sessions[s].active ==> s in LibraryOf(p, p.sessions[s].library).open)
      && (Stack(p, f) != [] ==> Ends(p, Last(Stack(p, f))) && Closes(p, Last(Stack(p, f))))
  {
    var p := After(START, steps);
    AlwaysKept(steps);
    if i < j < |LibraryOf(p, l).open| { OpenInOrder(p, l, i, j); }
    if s in LibraryOf(p, l).open {
      var g := LibraryOf(p, l).holder;
      assert FiberKept(p, g) && RunsKept(p, g, l);
      var at := SessionAt(Stack(p, g), l, s);
      assert ActivationKept(p, g, Stack(p, g)[at]);
    }
    if s < |p.sessions| { ActiveIsOpen(p, s); }
    if Stack(p, f) != [] { EndIsNeverRefused(p, f); }
  }

  // ----- the run a function is called in -----

  /** The latest opened run on a stack among some libraries'. */
  function Latest(s: seq<Activation>, libraries: seq<nat>): Option<nat> {
    if s == [] then None
    else if Last(s).library in libraries then Some(Last(s).session)
    else Latest(Front(s), libraries)
  }

  lemma {:induction false} LatestOfOne(s: seq<Activation>, l: nat)
    ensures Latest(s, [l]) == if SessionsOf(s, l) == [] then None else Some(Last(SessionsOf(s, l)))
  {
    if s != [] { LatestOfOne(Front(s), l); }
  }

  lemma HereIsLatest(p: Process, f: Fiber, l: nat)
    requires Kept(p)
    ensures InnermostHere(p, f, l) == Latest(Stack(p, f), [l])
  {
    assert FiberKept(p, f) && RunsKept(p, f, l);
    LatestOfOne(Stack(p, f), l);
  }

  lemma {:induction false} LatestOn(s: seq<Activation>, libraries: seq<nat>) returns (i: nat)
    requires Latest(s, libraries).Some?
    ensures i < |s| && s[i].session == Latest(s, libraries).value && s[i].library in libraries
  {
    if Last(s).library in libraries { i := |s| - 1; } else { i := LatestOn(Front(s), libraries); }
  }

  /** One library more: the later of what was latest and its own. */
  lemma {:induction false} LatestNext(p: Process, s: seq<Activation>, libraries: seq<nat>, l: nat)
    requires Increasing(p, s)
    ensures var here, before := Latest(s, [l]), Latest(s, libraries);
      && (here.Some? ==> here.value < |p.sessions|) && (before.Some? ==> before.value < |p.sessions|)
      && Latest(s, libraries + [l]) ==
           (if here.Some? && (before.None? || p.sessions[here.value].order > p.sessions[before.value].order) then here else before)
  {
    if s != [] {
      LatestNext(p, Front(s), libraries, l);
      var a := Last(s);
      assert a == s[|s| - 1];
      if a.library in libraries && a.library != l {
        if Latest(Front(s), [l]).Some? {
          var i := LatestOn(Front(s), [l]);
          assert s[i].session == Latest(s, [l]).value;
        }
      } else if a.library == l && a.library !in libraries {
        if Latest(Front(s), libraries).Some? {
          var i := LatestOn(Front(s), libraries);
          assert s[i].session == Latest(s, libraries).value;
        }
      }
    }
  }

  /** The run is one of those going on the stack. */
  predicate GoingOn(s: seq<Activation>, session: nat) {
    exists i :: 0 <= i < |s| && s[i].session == session
  }

  /** And the last of its library's there. */
  predicate LastOn(s: seq<Activation>, session: nat) {
    exists i :: 0 <= i < |s| && s[i].session == session && NoneLater(s, i)
  }

  predicate NoneLater(s: seq<Activation>, i: int)
    requires 0 <= i < |s|
  {
    forall j :: i < j < |s| ==> s[j].library != s[i].library
  }

  lemma {:induction false} NoneLaterIsLatest(s: seq<Activation>, i: nat)
    requires i < |s| && NoneLater(s, i)
    ensures Latest(s, [s[i].library]) == Some(s[i].session)
  {
    if i < |s| - 1 {
      assert forall j :: i < j < |s| - 1 ==> Front(s)[j] == s[j];
      NoneLaterIsLatest(Front(s), i);
    }
  }

  lemma {:induction false} LatestHasNoneLater(s: seq<Activation>, l: nat) returns (i: nat)
    requires Latest(s, [l]).Some?
    ensures i < |s| && s[i].library == l && s[i].session == Latest(s, [l]).value && NoneLater(s, i)
  {
    if Last(s).library == l {
      i := |s| - 1;
    } else {
      i := LatestHasNoneLater(Front(s), l);
      assert forall j :: i < j < |s| - 1 ==> Front(s)[j] == s[j];
    }
  }

  /** What `Usable` answers, off the stack: a session is refused exactly where its run is not going on the
      fiber asking, so runs inside it refuse nothing of it. */
  lemma UsableIsGoing(p: Process, f: Fiber, s: nat)
    requires Kept(p)
    ensures Usable(p, f, s) <==> GoingOn(Stack(p, f), s)
  {
    assert FiberKept(p, f);
    if Usable(p, f, s) { var i := UsableStands(p, f, s); }
    if GoingOn(Stack(p, f), s) {
      var i :| 0 <= i < |Stack(p, f)| && Stack(p, f)[i].session == s;
      assert ActivationKept(p, f, Stack(p, f)[i]);
    }
  }

  /** What `Callable` answers, off the stack: exactly the last of a library's runs on the fiber. */
  lemma CallableIsLast(p: Process, f: Fiber, s: nat)
    requires Kept(p)
    ensures Callable(p, f, s) <==> LastOn(Stack(p, f), s)
  {
    UsableIsGoing(p, f, s);
    if Usable(p, f, s) {
      var i := UsableStands(p, f, s);
      var l := p.sessions[s].library;
      ActiveIsOpen(p, s);
      HereIsLatest(p, f, l);
      assert Callable(p, f, s) <==> Latest(Stack(p, f), [l]) == Some(s);
      assert FiberKept(p, f);
      if Callable(p, f, s) { var j := LatestHasNoneLater(Stack(p, f), l); }
      if LastOn(Stack(p, f), s) {
        var j :| 0 <= j < |Stack(p, f)| && Stack(p, f)[j].session == s && NoneLater(Stack(p, f), j);
        assert ActivationKept(p, f, Stack(p, f)[j]);
        NoneLaterIsLatest(Stack(p, f), j);
      }
    }
  }

  /** A session is active exactly where some fiber has its run going. */
  lemma ActiveIsGoing(p: Process, s: nat)
    requires Kept(p) && s < |p.sessions|
    ensures p.sessions[s].active <==> exists f :: GoingOn(Stack(p, f), s)
  {
    forall f ensures Usable(p, f, s) <==> GoingOn(Stack(p, f), s) { UsableIsGoing(p, f, s); }
    if p.sessions[s].active { assert GoingOn(Stack(p, p.sessions[s].fiber), s); }
  }

  /** What asking a session for its library comes to (`Session::ffi`, `Session::call`). */
  datatype Asked = Given | Expired | AnotherFiber | NotTheInnermost

  /** Whose runs of a library are going: nobody's but the fiber asking, exactly where it is not refused. */
  lemma RefusedBySomeone(p: Process, f: Fiber, l: nat)
    requires Kept(p)
    ensures Refused(p, f, l) <==> exists g :: g != f && SessionsOf(Stack(p, g), l) != []
  {
    var g := LibraryOf(p, l).holder;
    assert FiberKept(p, g) && RunsKept(p, g, l);
    if !Refused(p, f, l) {
      forall h | h != f ensures SessionsOf(Stack(p, h), l) == [] { assert FiberKept(p, h) && RunsKept(p, h, l); }
    }
  }

  /** Every run going was opened before now. */
  lemma OpenIsBefore(p: Process, l: nat, s: nat)
    requires Kept(p) && s in LibraryOf(p, l).open
    ensures s < |p.sessions| && p.sessions[s].order <= p.started
  {
    var g := LibraryOf(p, l).holder;
    assert FiberKept(p, g) && RunsKept(p, g, l);
    var i := SessionAt(Stack(p, g), l, s);
    assert ActivationKept(p, g, Stack(p, g)[i]);
  }

  /** A session opened after each of some runs. */
  predicate OpenedAfter(p: Process, s: nat, runs: seq<nat>)
    requires s < |p.sessions|
  {
    forall r :: r in runs ==> r < s && p.sessions[r].order < p.sessions[s].order
  }

  /** A run begun is its library's innermost on its fiber, and opened after every run going. */
  lemma StartStands(p: Process, f: Fiber, l: nat)
    requires Kept(p) && !Refused(p, f, l)
    ensures var q, s := Start(p, f, l), |p.sessions|;
      && Callable(q, f, s) && InnermostHere(q, f, l) == Some(s)
      && forall m: nat :: OpenedAfter(q, s, LibraryOf(p, m).open)
  {
    forall m: nat ensures OpenedAfter(Start(p, f, l), |p.sessions|, LibraryOf(p, m).open) {
      forall r | r in LibraryOf(p, m).open ensures r < |p.sessions| && p.sessions[r].order <= p.started {
        OpenIsBefore(p, m, r);
      }
    }
  }

  /** What the runtime keeps: the sessions made, for each library the runs of it that are open and the
      fiber holding it, how many sessions were opened, and the scopes of each library's arena. Where each
      fiber is, is for the proof alone. */
  class Runtime {
    var sessions: seq<Session>
    var open: map<nat, seq<nat>>
    var holders: map<nat, Fiber>
    var started: nat
    var scopes: map<nat, seq<nat>>
    var tokens: nat
    ghost var stacks: map<Fiber, seq<Activation>>

    ghost function Now(): Process
      reads this
    {
      Process(sessions, open, holders, scopes, stacks, started, tokens)
    }

    ghost predicate Valid()
      reads this
    {
      Kept(Now())
    }

    constructor ()
      ensures Valid() && Now() == START
    {
      sessions, open, holders, started, scopes, tokens, stacks := [], map[], map[], 0, map[], 0, map[];
      new;
      AlwaysKept([]);
    }

    function OpenOf(l: nat): seq<nat>
      reads this
    {
      if l in open then open[l] else []
    }

    function HolderOf(l: nat): Fiber
      reads this
    {
      if l in holders then holders[l] else None
    }

    /** Pushes a fresh session and takes the library for `f`, unless its runs are some other fiber's. */
    method Open(f: Fiber, l: nat) returns (session: Option<nat>)
      modifies this`sessions, this`open, this`holders, this`started
      ensures session.None? <==> old(OpenOf(l)) != [] && old(HolderOf(l)) != f
      ensures session.None? ==> sessions == old(sessions) && open == old(open) && holders == old(holders) && started == old(started)
      ensures session.Some? ==>
        && session.value == |old(sessions)| && started == old(started) + 1
        && sessions == old(sessions) + [Session(l, f, started, true)]
        && open == old(open)[l := old(OpenOf(l)) + [session.value]] && holders == old(holders)[l := f]
    {
      if OpenOf(l) != [] && f != HolderOf(l) { return None; }
      holders := holders[l := f];
      started := started + 1;
      session := Some(|sessions|);
      sessions := sessions + [Session(l, f, started, true)];
      open := open[l := OpenOf(l) + [session.value]];
    }

    /** Ends the run a session is for, where it is its library's innermost. */
    method CloseSession(l: nat, session: nat) returns (closed: bool)
      requires session < |sessions|
      modifies this`sessions, this`open, this`holders
      ensures closed <==> old(OpenOf(l)) != [] && Last(old(OpenOf(l))) == session
      ensures !closed ==> sessions == old(sessions) && open == old(open) && holders == old(holders)
      ensures closed ==>
        && open == old(open)[l := Front(old(OpenOf(l)))]
        && sessions == old(sessions)[session := old(sessions)[session].(active := false)]
        && holders == if Front(old(OpenOf(l))) == [] then old(holders)[l := None] else old(holders)
    {
      if OpenOf(l) == [] || Last(OpenOf(l)) != session { return false; }
      open := open[l := Front(OpenOf(l))];
      sessions := sessions[session := sessions[session].(active := false)];
      if OpenOf(l) == [] { holders := holders[l := None]; }
      closed := true;
    }

    /** The library's own: a scope opened in its arena, and one closed where it is the innermost. */
    method OpenScope(l: nat) returns (scope: nat)
      modifies this`scopes, this`tokens
      ensures scope == old(tokens) && tokens == old(tokens) + 1
      ensures scopes == old(scopes)[l := (if l in old(scopes) then old(scopes)[l] else []) + [scope]]
    {
      scope := tokens;
      tokens := tokens + 1;
      scopes := scopes[l := (if l in scopes then scopes[l] else []) + [scope]];
    }

    method CloseScope(l: nat, scope: nat) returns (closed: bool)
      modifies this`scopes
      ensures closed <==> l in old(scopes) && old(scopes)[l] != [] && Last(old(scopes)[l]) == scope
      ensures scopes == if closed then old(scopes)[l := Front(old(scopes)[l])] else old(scopes)
    {
      if l !in scopes || scopes[l] == [] || Last(scopes[l]) != scope { return false; }
      scopes := scopes[l := Front(scopes[l])];
      closed := true;
    }

    /** A run begun on a fiber: exactly where no other fiber has one of the library going. It is then the
        one computations are started through there, and opened after every run going of any library;
        and where it is refused nothing was opened. */
    method StartRun(f: Fiber, l: nat) returns (session: Option<nat>, scope: nat)
      requires Valid()
      modifies this
      ensures Valid() && Now() == Start(old(Now()), f, l)
      ensures session.Some? <==> forall g :: g != f ==> SessionsOf(Stack(old(Now()), g), l) == []
      ensures session.None? ==> Now() == old(Now())
      ensures session.Some? ==>
        && Callable(Now(), f, session.value) && InnermostHere(Now(), f, l) == session
        && Stack(Now(), f) == Stack(old(Now()), f) + [Activation(session.value, l, scope)] && HolderOf(l) == f
        && forall m: nat :: OpenedAfter(Now(), session.value, LibraryOf(old(Now()), m).open)
    {
      ghost var before := Now();
      StartKept(before, f, l);
      RefusedBySomeone(before, f, l);
      if !Refused(before, f, l) { StartStands(before, f, l); }
      session := Open(f, l);
      scope := 0;
      if session.Some? {
        scope := OpenScope(l);
        stacks := stacks[f := Stack(before, f) + [Activation(session.value, l, scope)]];
        assert Now() == Start(before, f, l);
      }
    }

    /** The innermost run of a fiber ended: its session expires and its scope closes, neither the library
        nor the arena refusing it. */
    method EndRun(f: Fiber, l: nat, session: nat, scope: nat) returns (ended: bool)
      requires Valid() && Stack(Now(), f) != [] && Last(Stack(Now(), f)) == Activation(session, l, scope)
      modifies this
      ensures Valid() && ended && Now() == End(old(Now()), f)
      ensures Stack(Now(), f) == Front(Stack(old(Now()), f))
      ensures session < |sessions| && !sessions[session].active && Scopes(Now(), l) + [scope] == Scopes(old(Now()), l)
      ensures HolderOf(l) == if SessionsOf(Stack(Now(), f), l) == [] then None else f
    {
      ghost var before := Now();
      EndIsNeverRefused(before, f);
      EndKept(before, f);
      assert FiberKept(End(before, f), f) && RunsKept(End(before, f), f, l);
      ended := CloseSession(l, session);
      var closed := CloseScope(l, scope);
      ended := ended && closed;
      stacks := stacks[f := Front(Stack(before, f))];
      assert Now() == End(before, f);
    }

    /** The library's functions, to read a value of the session's run: expiry is asked before the fiber. */
    method Ask(f: Fiber, session: nat) returns (answer: Asked)
      requires Valid() && session < |sessions|
      ensures answer.Given? <==> GoingOn(Stack(Now(), f), session)
      ensures answer.Expired? <==> forall g :: !GoingOn(Stack(Now(), g), session)
      ensures answer.AnotherFiber? <==> exists g :: g != f && GoingOn(Stack(Now(), g), session)
    {
      UsableIsGoing(Now(), f, session);
      ActiveIsGoing(Now(), session);
      forall g ensures Usable(Now(), g, session) <==> GoingOn(Stack(Now(), g), session) { UsableIsGoing(Now(), g, session); }
      assert sessions[session].active ==> GoingOn(Stack(Now(), sessions[session].fiber), session);
      if !sessions[session].active { return Expired; }
      if f != sessions[session].fiber { return AnotherFiber; }
      answer := Given;
    }

    /** The same to start a computation, for which only the innermost run's session does. */
    method AskToCall(f: Fiber, session: nat) returns (answer: Asked)
      requires Valid() && session < |sessions|
      ensures answer.Given? <==> LastOn(Stack(Now(), f), session)
      ensures answer.NotTheInnermost? <==> GoingOn(Stack(Now(), f), session) && !LastOn(Stack(Now(), f), session)
      ensures answer.Expired? <==> forall g :: !GoingOn(Stack(Now(), g), session)
    {
      answer := Ask(f, session);
      CallableIsLast(Now(), f, session);
      UsableIsGoing(Now(), f, session);
      if answer.Given? {
        ActiveIsOpen(Now(), session);
        var l := sessions[session].library;
        if Last(OpenOf(l)) != session { answer := NotTheInnermost; }
      }
    }

    /** The innermost run of a library that is going on the fiber asking. */
    method Here(f: Fiber, l: nat) returns (session: Option<nat>)
      ensures session == InnermostHere(Now(), f, l)
    {
      if OpenOf(l) == [] || HolderOf(l) != f { return None; }
      session := Some(Last(OpenOf(l)));
    }

    /** A maximum by `order` over the libraries, of their innermost runs held by `f`: it is the topmost
        activation of any of them on the stack of `f`. */
    method InnermostOf(f: Fiber, libraries: seq<nat>) returns (innermost: Option<nat>)
      requires Valid()
      ensures innermost == Latest(Stack(Now(), f), libraries)
    {
      innermost := None;
      assert FiberKept(Now(), f);
      LatestOfNone(Stack(Now(), f));
      for i := 0 to |libraries|
        invariant innermost == Latest(Stack(Now(), f), libraries[..i])
      {
        HereIsLatest(Now(), f, libraries[i]);
        LatestNext(Now(), Stack(Now(), f), libraries[..i], libraries[i]);
        assert libraries[..i + 1] == libraries[..i] + [libraries[i]];
        var here := Here(f, libraries[i]);
        if here.Some? && (innermost.None? || sessions[here.value].order > sessions[innermost.value].order) {
          innermost := here;
        }
      }
      assert libraries[..|libraries|] == libraries;
    }
  }

  lemma {:induction false} LatestOfNone(s: seq<Activation>)
    ensures Latest(s, []) == None
  {
    if s != [] { LatestOfNone(Front(s)); }
  }
}
