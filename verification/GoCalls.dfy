/** The same calls as a Go run keeps them (`Called`, `Host`, `innermost` in
    bindings/go/runtime/run.go): no stack of calls over the thread, but in each run the calls made
    through it, and a callback answered to the innermost run of the library it goes through. */
module GoCalls {
  import opened Options
  import opened CallFrames

  /** A run open on the thread: of which library, and what was left for each call going on in it. */
  datatype GoRun = GoRun(runtime: nat, id: nat, calls: seq<Option<Caught>>)

  /** The root runs open, every run open in the order they were begun, and what was made. */
  datatype Go = Go(open: seq<nat>, runs: seq<GoRun>, log: Log)

  datatype GoHostRun = GoHostRun(end: HostEnd, go: Go)
  datatype GoNativeRun = GoNativeRun(end: NativeEnd, go: Go)
  datatype GoCallRun = GoCallRun(end: CallEnd, go: Go)

  /** The run open innermost of a library's. */
  function Innermost(runs: seq<GoRun>, runtime: nat): (r: Option<nat>)
    ensures r.Some? ==> r.value < |runs| && runs[r.value].runtime == runtime
    ensures r.Some? ==> forall i :: r.value < i < |runs| ==> runs[i].runtime != runtime
    ensures r.None? ==> forall i :: 0 <= i < |runs| ==> runs[i].runtime != runtime
  {
    if runs == [] then None
    else if runs[|runs| - 1].runtime == runtime then Some(|runs| - 1)
    else Innermost(runs[..|runs| - 1], runtime)
  }

  /** The same runs, with as many calls going on in each. */
  predicate SameShape(a: seq<GoRun>, b: seq<GoRun>) {
    |a| == |b| && forall i :: 0 <= i < |a| ==> a[i].runtime == b[i].runtime && a[i].id == b[i].id && |a[i].calls| == |b[i].calls|
  }

  /** What a callback left, on the innermost call of the run at `at`, unless something was left before. */
  function LeftIn(runs: seq<GoRun>, at: nat, caught: Option<Caught>): (r: seq<GoRun>)
    requires at < |runs| && runs[at].calls != []
    ensures SameShape(r, runs)
  {
    var calls := runs[at].calls;
    var last := |calls| - 1;
    runs[at := runs[at].(calls := calls[..last] + [KeptFirst(calls[last], caught)])]
  }

  /** The thread with a run of `runtime`'s begun on it. */
  function Begun(g: Go, runtime: nat): Go {
    g.(runs := g.runs + [GoRun(runtime, g.log.next, [])], log := g.log.(next := g.log.next + 1))
  }

  /** What was done in a run begun where `g` stood, with the run ended and any root it opened left. */
  function Finished(run: GoHostRun, g: Go): GoHostRun
    requires |g.runs| <= |run.go.runs|
  {
    GoHostRun(run.end, Go(g.open, run.go.runs[..|g.runs|], run.go.log))
  }

  /** What is done in the run at `at`, which is the innermost of its library. */
  function GoHost(statuses: nat -> Statuses, h: Host, at: nat, g: Go): (r: GoHostRun)
    requires at < |g.runs|
    ensures SameShape(r.go.runs, g.runs) && r.go.open == g.open && g.log.made <= r.go.log.made
    decreases h, 0
  {
    match h
    case Answers => GoHostRun(Answered, g)
    case Fails(error) => GoHostRun(Failed(error), g)
    case Panics(payload) => GoHostRun(Panicked(payload), g)
    case Makes(item, next) =>
      GoHost(statuses, next, at, g.(log := g.log.(made := g.log.made + [(g.runs[at].id, item)])))
    case Calls(native, onAnswer, onFailure) =>
      var call := GoCall(statuses, native, at, g);
      (match call.end
       case Done => GoHost(statuses, onAnswer, at, call.go)
       case Failing(_) => GoHost(statuses, onFailure, at, call.go)
       case Raising(payload) => GoHostRun(Panicked(payload), call.go))
    case Scoped(inner, onAnswer, onFailure) =>
      var run := Finished(GoHost(statuses, inner, |g.runs|, Begun(g, g.runs[at].runtime)), g);
      (match run.end
       case Answered => GoHost(statuses, onAnswer, at, run.go)
       case Failed(_) => GoHost(statuses, onFailure, at, run.go)
       case Panicked(_) => run)
    case Rooted(other, inner, onAnswer, onFailure) =>
      if other in g.open then GoHost(statuses, onFailure, at, g)
      else
        var run := Finished(GoHost(statuses, inner, |g.runs|, Begun(g.(open := g.open + [other]), other)), g);
        (match run.end
         case Answered => GoHost(statuses, onAnswer, at, run.go)
         case Failed(_) => GoHost(statuses, onFailure, at, run.go)
         case Panicked(_) => run)
  }

  /** A call made through the run at `at`, off that run's calls again however it came back. */
  function GoCall(statuses: nat -> Statuses, n: Native, at: nat, g: Go): (r: GoCallRun)
    requires at < |g.runs|
    ensures SameShape(r.go.runs, g.runs) && r.go.open == g.open && g.log.made <= r.go.log.made
    decreases n, 1
  {
    var calls := g.runs[at].calls;
    var run := GoNative(statuses, n, g.(runs := g.runs[at := g.runs[at].(calls := calls + [None])]));
    var kept := run.go.runs[at].calls[|calls|];
    var left := run.go.(runs := run.go.runs[at := run.go.runs[at].(calls := run.go.runs[at].calls[..|calls|])]);
    GoCallRun(match run.end
              case Status(status) => Outcome(statuses(g.runs[at].runtime), status, kept)
              case Unwound(payload) => Raising(payload),
              left)
  }

  function GoNative(statuses: nat -> Statuses, n: Native, g: Go): (r: GoNativeRun)
    ensures SameShape(r.go.runs, g.runs) && r.go.open == g.open && g.log.made <= r.go.log.made
    decreases n, 0
  {
    match n
    case Returns(status) => GoNativeRun(Status(status), g)
    case Unwinds(payload) => GoNativeRun(Unwound(payload), g)
    case CallsBack(through, host, onAnswered, onFailed) =>
      var at := Innermost(g.runs, through);
      if at.None? || g.runs[at.value].calls == [] then GoNative(statuses, onFailed, g)
      else
        var run := GoCalledBack(statuses, host, at.value, g);
        GoNative(statuses, if run.end.Answered? then onAnswered else onFailed, run.go)
  }

  /** A callback answered to the run at `at`, what it leaves being left on the innermost call there. */
  function GoCalledBack(statuses: nat -> Statuses, host: Host, at: nat, g: Go): (r: GoHostRun)
    requires at < |g.runs| && g.runs[at].calls != []
    ensures SameShape(r.go.runs, g.runs) && r.go.open == g.open && g.log.made <= r.go.log.made
    decreases host, 1
  {
    var run := GoHost(statuses, host, at, g);
    GoHostRun(run.end, run.go.(runs := LeftIn(run.go.runs, at, CaughtOf(run.end))))
  }

  // ----- where it is the same meaning -----

  /** Every callback goes through the library called, or through one whose innermost run has no call
      going on (`busy` are those whose has). */
  predicate Proper(h: Host, runtime: nat, open: seq<nat>, busy: set<nat>)
    decreases h
  {
    match h
    case Answers => true
    case Fails(_) => true
    case Panics(_) => true
    case Makes(_, next) => Proper(next, runtime, open, busy)
    case Calls(native, onAnswer, onFailure) =>
      && ProperNative(native, runtime, open, busy + {runtime})
      && Proper(onAnswer, runtime, open, busy) && Proper(onFailure, runtime, open, busy)
    case Scoped(inner, onAnswer, onFailure) =>
      && Proper(inner, runtime, open, busy - {runtime})
      && Proper(onAnswer, runtime, open, busy) && Proper(onFailure, runtime, open, busy)
    case Rooted(other, inner, onAnswer, onFailure) =>
      if other in open then Proper(onFailure, runtime, open, busy)
      else
        && Proper(inner, other, open + [other], busy - {other})
        && Proper(onAnswer, runtime, open, busy) && Proper(onFailure, runtime, open, busy)
  }

  predicate ProperNative(n: Native, runtime: nat, open: seq<nat>, busy: set<nat>)
    decreases n
  {
    match n
    case Returns(_) => true
    case Unwinds(_) => true
    case CallsBack(through, host, onAnswered, onFailed) =>
      if through == runtime then
        Proper(host, runtime, open, busy) && ProperNative(onAnswered, runtime, open, busy) && ProperNative(onFailed, runtime, open, busy)
      else through !in busy && ProperNative(onFailed, runtime, open, busy)
  }

  /** A call is going on in the innermost run of the library. */
  predicate Calling(runs: seq<GoRun>, runtime: nat) {
    Innermost(runs, runtime).Some? && runs[Innermost(runs, runtime).value].calls != []
  }

  predicate BusyAt(runs: seq<GoRun>, busy: set<nat>, runtime: nat) {
    runtime in busy <==> Calling(runs, runtime)
  }

  /** `busy` are the libraries whose innermost run has a call going on. */
  ghost predicate Busy(runs: seq<GoRun>, busy: set<nat>) {
    forall runtime: nat :: BusyAt(runs, busy, runtime)
  }

  predicate RootsOpen(g: Go) {
    forall i :: 0 <= i < |g.runs| ==> g.runs[i].runtime in g.open
  }

  /** `at` is the innermost run of `runtime`'s, and `keeper` which it is. */
  ghost predicate Stands(g: Go, at: nat, runtime: nat, keeper: nat, busy: set<nat>) {
    && at < |g.runs| && Innermost(g.runs, runtime) == Some(at) && g.runs[at].id == keeper
    && Busy(g.runs, busy) && RootsOpen(g)
  }

  lemma {:induction false} InnermostShape(a: seq<GoRun>, b: seq<GoRun>, runtime: nat)
    requires SameShape(a, b)
    ensures Innermost(a, runtime) == Innermost(b, runtime)
  {
    if a != [] { InnermostShape(a[..|a| - 1], b[..|b| - 1], runtime); }
  }

  lemma StandsShape(g: Go, h: Go, at: nat, runtime: nat, keeper: nat, busy: set<nat>)
    requires Stands(g, at, runtime, keeper, busy) && SameShape(h.runs, g.runs) && h.open == g.open
    ensures Stands(h, at, runtime, keeper, busy)
  {
    InnermostShape(h.runs, g.runs, runtime);
    forall r: nat ensures BusyAt(h.runs, busy, r) {
      assert BusyAt(g.runs, busy, r);
      InnermostShape(h.runs, g.runs, r);
    }
  }

  lemma StandsBegun(g: Go, at: nat, runtime: nat, keeper: nat, busy: set<nat>, inner: nat, open: seq<nat>)
    requires Stands(g, at, runtime, keeper, busy) && inner in open && forall x :: x in g.open ==> x in open
    ensures Stands(Begun(g.(open := open), inner), |g.runs|, inner, g.log.next, busy - {inner})
  {
    var begun := Begun(g.(open := open), inner);
    assert begun.runs[..|begun.runs| - 1] == g.runs;
    forall r: nat ensures BusyAt(begun.runs, busy - {inner}, r) { assert BusyAt(g.runs, busy, r); }
  }

  lemma StandsCalling(g: Go, at: nat, runtime: nat, keeper: nat, busy: set<nat>, calls: seq<Option<Caught>>)
    requires Stands(g, at, runtime, keeper, busy) && calls != []
    ensures Stands(g.(runs := g.runs[at := g.runs[at].(calls := calls)]), at, runtime, keeper, busy + {runtime})
  {
    var runs := g.runs[at := g.runs[at].(calls := calls)];
    InnermostRuntimes(runs, g.runs, runtime);
    forall r: nat ensures BusyAt(runs, busy + {runtime}, r) {
      assert BusyAt(g.runs, busy, r);
      InnermostRuntimes(runs, g.runs, r);
    }
  }

  lemma {:induction false} InnermostRuntimes(a: seq<GoRun>, b: seq<GoRun>, runtime: nat)
    requires |a| == |b| && forall i :: 0 <= i < |a| ==> a[i].runtime == b[i].runtime
    ensures Innermost(a, runtime) == Innermost(b, runtime)
  {
    if a != [] { InnermostRuntimes(a[..|a| - 1], b[..|b| - 1], runtime); }
  }

  /** Kept run by run, calls come to what they mean: every run is left as it was, and what was left by a
      callback is what its own call comes to. */
  lemma {:induction false} GoMeansHost(statuses: nat -> Statuses, h: Host, at: nat, g: Go, runtime: nat, keeper: nat, busy: set<nat>)
    requires Stands(g, at, runtime, keeper, busy) && Proper(h, runtime, g.open, busy)
    ensures var run := HostMeans(statuses, h, runtime, keeper, g.open, g.log);
            GoHost(statuses, h, at, g) == GoHostRun(run.end, g.(log := run.log))
    decreases h, 0
  {
    match h
    case Answers =>
    case Fails(_) =>
    case Panics(_) =>
    case Makes(item, next) =>
      GoMeansHost(statuses, next, at, g.(log := g.log.(made := g.log.made + [(keeper, item)])), runtime, keeper, busy);
    case Calls(native, onAnswer, onFailure) =>
      GoMeansCall(statuses, native, at, g, runtime, keeper, busy);
      var call := CallMeans(statuses, native, runtime, keeper, g.open, g.log);
      if !call.end.Raising? {
        GoMeansHost(statuses, if call.end.Done? then onAnswer else onFailure, at, g.(log := call.log), runtime, keeper, busy);
      }
    case Scoped(inner, onAnswer, onFailure) =>
      GoMeansWithin(statuses, inner, at, g, runtime, keeper, busy, runtime, g.open);
      var run := HostMeans(statuses, inner, runtime, g.log.next, g.open, g.log.(next := g.log.next + 1));
      if !run.end.Panicked? {
        GoMeansHost(statuses, if run.end.Answered? then onAnswer else onFailure, at, g.(log := run.log), runtime, keeper, busy);
      }
    case Rooted(other, inner, onAnswer, onFailure) =>
      if other in g.open {
        GoMeansHost(statuses, onFailure, at, g, runtime, keeper, busy);
      } else {
        GoMeansWithin(statuses, inner, at, g, runtime, keeper, busy, other, g.open + [other]);
        var run := HostMeans(statuses, inner, other, g.log.next, g.open + [other], g.log.(next := g.log.next + 1));
        if !run.end.Panicked? {
          GoMeansHost(statuses, if run.end.Answered? then onAnswer else onFailure, at, g.(log := run.log), runtime, keeper, busy);
        }
      }
  }

  /** A run begun inside the one at `at`, of its own library or as the root run of another. */
  lemma {:induction false} GoMeansWithin(statuses: nat -> Statuses, inner: Host, at: nat, g: Go, runtime: nat,
                                         keeper: nat, busy: set<nat>, other: nat, open: seq<nat>)
    requires Stands(g, at, runtime, keeper, busy) && other in open && (forall x :: x in g.open ==> x in open)
    requires Proper(inner, other, open, busy - {other})
    ensures var run := HostMeans(statuses, inner, other, g.log.next, open, g.log.(next := g.log.next + 1));
            Finished(GoHost(statuses, inner, |g.runs|, Begun(g.(open := open), other)), g) == GoHostRun(run.end, g.(log := run.log))
    decreases inner, 1
  {
    var begun := Begun(g.(open := open), other);
    StandsBegun(g, at, runtime, keeper, busy, other, open);
    GoMeansHost(statuses, inner, |g.runs|, begun, other, g.log.next, busy - {other});
    assert begun.runs[..|g.runs|] == g.runs;
  }

  lemma {:induction false} GoMeansCall(statuses: nat -> Statuses, n: Native, at: nat, g: Go, runtime: nat, keeper: nat, busy: set<nat>)
    requires Stands(g, at, runtime, keeper, busy) && ProperNative(n, runtime, g.open, busy + {runtime})
    ensures var call := CallMeans(statuses, n, runtime, keeper, g.open, g.log);
            GoCall(statuses, n, at, g) == GoCallRun(call.end, g.(log := call.log))
    decreases n, 1
  {
    var calls := g.runs[at].calls;
    var calling := g.(runs := g.runs[at := g.runs[at].(calls := calls + [None])]);
    StandsCalling(g, at, runtime, keeper, busy, calls + [None]);
    GoMeansNative(statuses, n, at, calling, runtime, keeper, busy + {runtime});
    var run := NativeMeans(statuses, n, runtime, keeper, g.open, g.log);
    LeftAndDropped(g.runs, at, FirstFailure(run.own));
  }

  /** A call put on a run's calls, left something and taken off again. */
  lemma LeftAndDropped(runs: seq<GoRun>, at: nat, caught: Option<Caught>)
    requires at < |runs|
    ensures var calls := runs[at].calls;
            var left := LeftIn(runs[at := runs[at].(calls := calls + [None])], at, caught);
            left[at].calls[|calls|] == caught && left[at := left[at].(calls := left[at].calls[..|calls|])] == runs
  {
    var calls := runs[at].calls;
    assert (calls + [None])[..|calls|] == calls;
    assert (calls + [caught])[..|calls|] == calls;
  }

  lemma {:induction false} GoMeansNative(statuses: nat -> Statuses, n: Native, at: nat, g: Go, runtime: nat, keeper: nat, busy: set<nat>)
    requires Stands(g, at, runtime, keeper, busy) && g.runs[at].calls != [] && ProperNative(n, runtime, g.open, busy)
    ensures var run := NativeMeans(statuses, n, runtime, keeper, g.open, g.log);
            GoNative(statuses, n, g) == GoNativeRun(run.end, g.(runs := LeftIn(g.runs, at, FirstFailure(run.own)), log := run.log))
    decreases n, 0
  {
    var kept := g.runs[at].calls[|g.runs[at].calls| - 1];
    match n
    case Returns(_) => LeftNothing(g.runs, at);
    case Unwinds(_) => LeftNothing(g.runs, at);
    case CallsBack(through, host, onAnswered, onFailed) =>
      if through != runtime {
        assert BusyAt(g.runs, busy, through);
        GoMeansNative(statuses, onFailed, at, g, runtime, keeper, busy);
      } else {
        GoMeansHost(statuses, host, at, g, runtime, keeper, busy);
        var run := HostMeans(statuses, host, runtime, keeper, g.open, g.log);
        var left := g.(runs := LeftIn(g.runs, at, CaughtOf(run.end)), log := run.log);
        StandsShape(g, left, at, runtime, keeper, busy);
        var rest := if run.end.Answered? then onAnswered else onFailed;
        GoMeansNative(statuses, rest, at, left, runtime, keeper, busy);
        LeftTwice(g.runs, at, run.end, NativeMeans(statuses, rest, runtime, keeper, g.open, run.log).own);
      }
  }

  lemma LeftNothing(runs: seq<GoRun>, at: nat)
    requires at < |runs| && runs[at].calls != []
    ensures LeftIn(runs, at, None) == runs
  {
    var calls := runs[at].calls;
    assert calls[..|calls| - 1] + [calls[|calls| - 1]] == calls;
  }

  /** One callback after another leaves what the first of them that left something left. */
  lemma LeftTwice(runs: seq<GoRun>, at: nat, end: HostEnd, own: seq<HostEnd>)
    requires at < |runs| && runs[at].calls != []
    ensures LeftIn(LeftIn(runs, at, CaughtOf(end)), at, FirstFailure(own)) == LeftIn(runs, at, FirstFailure([end] + own))
  {
    var calls := runs[at].calls;
    var last := |calls| - 1;
    assert ([end] + own)[1..] == own;
    var once := LeftIn(runs, at, CaughtOf(end));
    assert once[at].calls[..last] == calls[..last];
    assert once[at].calls[last] == KeptFirst(calls[last], CaughtOf(end));
  }

  // ----- what a guard keeps alone -----

  /** A callback as `Host` answers it: to the innermost run of the library it goes through, and not at
      all where that has no call going on. */
  function Answering(statuses: nat -> Statuses, through: nat, host: Host, g: Go): (r: GoHostRun)
    ensures SameShape(r.go.runs, g.runs)
  {
    if Calling(g.runs, through) then GoCalledBack(statuses, host, Innermost(g.runs, through).value, g)
    else GoHostRun(Failed(Crossing(ProtocolViolation)), g)
  }

  /** What is left for every call but the innermost of the run at `at` is what was. */
  predicate OthersAlone(a: seq<GoRun>, b: seq<GoRun>, at: nat)
    requires SameShape(a, b) && at < |a|
  {
    forall i, j :: 0 <= i < |a| && 0 <= j < |a[i].calls| && !(i == at && j == |a[at].calls| - 1) ==>
      a[i].calls[j] == b[i].calls[j]
  }

  /** In the middle of the innermost call of the run at `at`, into `runtime`: no implementation leaves
      anything for a call that is not the one it was called back from exactly where the callback goes
      through the library called, or through one with no call going on in its innermost run, or where
      something was left already for the call it would be left for. */
  lemma GuardIsExact(statuses: nat -> Statuses, through: nat, at: nat, g: Go, runtime: nat, keeper: nat, busy: set<nat>)
    requires Stands(g, at, runtime, keeper, busy) && g.runs[at].calls != []
    ensures
      (forall host :: Proper(host, through, g.open, busy) ==>
         OthersAlone(Answering(statuses, through, host, g).go.runs, g.runs, at))
      <==>
      (through == runtime || !Calling(g.runs, through) || LastOf(g.runs, through).Some?)
  {
    if through == runtime || !Calling(g.runs, through) || LastOf(g.runs, through).Some? {
      forall host | Proper(host, through, g.open, busy)
        ensures OthersAlone(Answering(statuses, through, host, g).go.runs, g.runs, at)
      {
        if Calling(g.runs, through) { AnsweredLeaves(statuses, through, host, at, g, runtime, keeper, busy); }
      }
    } else {
      var host := Fails(Implementation(0));
      assert Proper(host, through, g.open, busy);
      AnsweredLeaves(statuses, through, host, at, g, runtime, keeper, busy);
      var on := Innermost(g.runs, through).value;
      var last := |g.runs[on].calls| - 1;
      assert Answering(statuses, through, host, g).go.runs[on].calls[last] != g.runs[on].calls[last];
    }
  }

  /** What was left for the innermost call of a library's innermost run. */
  function LastOf(runs: seq<GoRun>, runtime: nat): Option<Caught>
    requires Calling(runs, runtime)
  {
    var calls := runs[Innermost(runs, runtime).value].calls;
    calls[|calls| - 1]
  }

  lemma AnsweredLeaves(statuses: nat -> Statuses, through: nat, host: Host, at: nat, g: Go, runtime: nat, keeper: nat, busy: set<nat>)
    requires Stands(g, at, runtime, keeper, busy) && Calling(g.runs, through) && Proper(host, through, g.open, busy)
    ensures var on := Innermost(g.runs, through).value;
      var end := HostMeans(statuses, host, through, g.runs[on].id, g.open, g.log).end;
      && Answering(statuses, through, host, g).go.runs == LeftIn(g.runs, on, CaughtOf(end))
      && (LastOf(g.runs, through).Some? ==> LeftIn(g.runs, on, CaughtOf(end)) == g.runs)
  {
    var on := Innermost(g.runs, through).value;
    GoMeansHost(statuses, host, on, g, through, g.runs[on].id, busy);
    if LastOf(g.runs, through).Some? {
      LeftSame(g.runs, on, CaughtOf(HostMeans(statuses, host, through, g.runs[on].id, g.open, g.log).end));
    }
  }

  lemma LeftSame(runs: seq<GoRun>, at: nat, caught: Option<Caught>)
    requires at < |runs| && runs[at].calls != []
    requires KeptFirst(runs[at].calls[|runs[at].calls| - 1], caught) == runs[at].calls[|runs[at].calls| - 1]
    ensures LeftIn(runs, at, caught) == runs
  {
    var calls := runs[at].calls;
    assert calls[..|calls| - 1] + [calls[|calls| - 1]] == calls;
  }

  // ----- where it is not the same meaning: a tree like it that is seen not to be -----

  /** A tree without what its implementations make and how its leaves end: the calls, the runs opened
      and the callbacks, with what is done after each where it answers and where it fails. */
  function HostShape(h: Host): Host {
    match h
    case Answers => Answers
    case Fails(_) => Answers
    case Panics(_) => Answers
    case Makes(_, next) => HostShape(next)
    case Calls(native, onAnswer, onFailure) => Calls(NativeShape(native), HostShape(onAnswer), HostShape(onFailure))
    case Scoped(inner, onAnswer, onFailure) => Scoped(HostShape(inner), HostShape(onAnswer), HostShape(onFailure))
    case Rooted(other, inner, onAnswer, onFailure) => Rooted(other, HostShape(inner), HostShape(onAnswer), HostShape(onFailure))
  }

  function NativeShape(n: Native): Native {
    match n
    case Returns(_) => Returns(0)
    case Unwinds(_) => Returns(0)
    case CallsBack(through, host, onAnswered, onFailed) =>
      CallsBack(through, HostShape(host), NativeShape(onAnswered), NativeShape(onFailed))
  }

  lemma {:induction false} ProperByShape(h: Host, runtime: nat, open: seq<nat>, busy: set<nat>)
    ensures Proper(h, runtime, open, busy) <==> Proper(HostShape(h), runtime, open, busy)
    decreases h
  {
    match h
    case Answers =>
    case Fails(_) =>
    case Panics(_) =>
    case Makes(_, next) => ProperByShape(next, runtime, open, busy);
    case Calls(native, onAnswer, onFailure) =>
      ProperNativeByShape(native, runtime, open, busy + {runtime});
      ProperByShape(onAnswer, runtime, open, busy);
      ProperByShape(onFailure, runtime, open, busy);
    case Scoped(inner, onAnswer, onFailure) =>
      ProperByShape(inner, runtime, open, busy - {runtime});
      ProperByShape(onAnswer, runtime, open, busy);
      ProperByShape(onFailure, runtime, open, busy);
    case Rooted(other, inner, onAnswer, onFailure) =>
      ProperByShape(inner, other, open + [other], busy - {other});
      ProperByShape(onAnswer, runtime, open, busy);
      ProperByShape(onFailure, runtime, open, busy);
  }

  lemma {:induction false} ProperNativeByShape(n: Native, runtime: nat, open: seq<nat>, busy: set<nat>)
    ensures ProperNative(n, runtime, open, busy) <==> ProperNative(NativeShape(n), runtime, open, busy)
    decreases n
  {
    if n.CallsBack? {
      ProperByShape(n.host, runtime, open, busy);
      ProperNativeByShape(n.onAnswered, runtime, open, busy);
      ProperNativeByShape(n.onFailed, runtime, open, busy);
    }
  }

  /** How a tree is made to end: answering, failing, or making one thing and answering. */
  predicate IsLeaf(leaf: Host) {
    leaf.Answers? || leaf.Fails? || (leaf.Makes? && leaf.next.Answers?)
  }

  /** The tree of that shape that goes on as though everything answered, to end as `leaf`. */
  function Ending(statuses: nat -> Statuses, h: Host, runtime: nat, leaf: Host): (r: Host)
    requires IsLeaf(leaf)
    ensures HostShape(r) == HostShape(h)
    decreases h
  {
    match h
    case Answers => leaf
    case Fails(_) => leaf
    case Panics(_) => leaf
    case Makes(_, next) => Ending(statuses, next, runtime, leaf)
    case Calls(native, onAnswer, onFailure) =>
      Calls(Returning(statuses, native, statuses(runtime).answered),
            Ending(statuses, onAnswer, runtime, leaf), Ending(statuses, onFailure, runtime, leaf))
    case Scoped(inner, onAnswer, onFailure) =>
      Scoped(Ending(statuses, inner, runtime, leaf), Ending(statuses, onAnswer, runtime, leaf), Ending(statuses, onFailure, runtime, leaf))
    case Rooted(other, inner, onAnswer, onFailure) =>
      Rooted(other, Ending(statuses, inner, other, leaf), Ending(statuses, onAnswer, runtime, leaf), Ending(statuses, onFailure, runtime, leaf))
  }

  /** And the call of that shape that answers `status`, everything called back answering. */
  function Returning(statuses: nat -> Statuses, n: Native, status: int): (r: Native)
    ensures NativeShape(r) == NativeShape(n)
    decreases n
  {
    match n
    case Returns(_) => Returns(status)
    case Unwinds(_) => Returns(status)
    case CallsBack(through, host, onAnswered, onFailed) =>
      CallsBack(through, Ending(statuses, host, through, Answers), Returning(statuses, onAnswered, status), Returning(statuses, onFailed, status))
  }

  function EndOf(leaf: Host): HostEnd {
    if leaf.Fails? then Failed(leaf.error) else Answered
  }

  predicate Unmade(log: Log, item: int) {
    forall i :: 0 <= i < |log.made| ==> log.made[i].1 != item
  }

  predicate HasMade(log: Log, item: int) {
    exists i :: 0 <= i < |log.made| && log.made[i].1 == item
  }

  /** What such a tree means: it ends as its leaves do, having made nothing but what they make. */
  lemma {:induction false} EndingMeans(statuses: nat -> Statuses, h: Host, runtime: nat, leaf: Host, keeper: nat, open: seq<nat>, log: Log, item: int)
    requires IsLeaf(leaf)
    ensures var run := HostMeans(statuses, Ending(statuses, h, runtime, leaf), runtime, keeper, open, log);
            run.end == EndOf(leaf) && (Unmade(log, item) && (leaf.Makes? ==> leaf.item != item) ==> Unmade(run.log, item))
    decreases h
  {
    match h
    case Answers =>
    case Fails(_) =>
    case Panics(_) =>
    case Makes(_, next) => EndingMeans(statuses, next, runtime, leaf, keeper, open, log, item);
    case Calls(native, onAnswer, onFailure) =>
      ReturningMeans(statuses, native, statuses(runtime).answered, runtime, keeper, open, log, item);
      var call := CallMeans(statuses, Returning(statuses, native, statuses(runtime).answered), runtime, keeper, open, log);
      EndingMeans(statuses, onAnswer, runtime, leaf, keeper, open, call.log, item);
    case Scoped(inner, onAnswer, onFailure) =>
      var begun := log.(next := log.next + 1);
      EndingMeans(statuses, inner, runtime, leaf, log.next, open, begun, item);
      var run := HostMeans(statuses, Ending(statuses, inner, runtime, leaf), runtime, log.next, open, begun);
      EndingMeans(statuses, if leaf.Fails? then onFailure else onAnswer, runtime, leaf, keeper, open, run.log, item);
    case Rooted(other, inner, onAnswer, onFailure) =>
      if other in open {
        EndingMeans(statuses, onFailure, runtime, leaf, keeper, open, log, item);
      } else {
        var begun := log.(next := log.next + 1);
        EndingMeans(statuses, inner, other, leaf, log.next, open + [other], begun, item);
        var run := HostMeans(statuses, Ending(statuses, inner, other, leaf), other, log.next, open + [other], begun);
        EndingMeans(statuses, if leaf.Fails? then onFailure else onAnswer, runtime, leaf, keeper, open, run.log, item);
      }
  }

  lemma {:induction false} ReturningMeans(statuses: nat -> Statuses, n: Native, status: int, runtime: nat, keeper: nat, open: seq<nat>, log: Log, item: int)
    ensures var m := Returning(statuses, n, status);
            var run := NativeMeans(statuses, m, runtime, keeper, open, log);
            && run.end == Status(status) && FirstFailure(run.own) == None
            && CallMeans(statuses, m, runtime, keeper, open, log).end == Outcome(statuses(runtime), status, None)
            && (Unmade(log, item) ==> Unmade(run.log, item))
    decreases n
  {
    if n.CallsBack? {
      if n.runtime != runtime {
        ReturningMeans(statuses, n.onFailed, status, runtime, keeper, open, log, item);
      } else {
        EndingMeans(statuses, n.host, runtime, Answers, keeper, open, log, item);
        var run := HostMeans(statuses, Ending(statuses, n.host, runtime, Answers), runtime, keeper, open, log);
        ReturningMeans(statuses, n.onAnswered, status, runtime, keeper, open, run.log, item);
        var rest := NativeMeans(statuses, Returning(statuses, n.onAnswered, status), runtime, keeper, open, run.log);
        assert ([run.end] + rest.own)[1..] == rest.own;
      }
    }
  }

  /** Run by run, whatever the callbacks in it go through: where its leaves answer it answers, leaves
      every run as it was, and makes what they make. */
  lemma {:induction false} EndingGoes(statuses: nat -> Statuses, h: Host, runtime: nat, leaf: Host, at: nat, g: Go)
    requires IsLeaf(leaf) && !leaf.Fails? && at < |g.runs| && g.runs[at].runtime == runtime
    ensures var run := GoHost(statuses, Ending(statuses, h, runtime, leaf), at, g);
            run.end == Answered && run.go.runs == g.runs && (leaf.Makes? ==> HasMade(run.go.log, leaf.item))
    decreases h
  {
    match h
    case Answers => LeafGoes(statuses, leaf, at, g);
    case Fails(_) => LeafGoes(statuses, leaf, at, g);
    case Panics(_) => LeafGoes(statuses, leaf, at, g);
    case Makes(_, next) => EndingGoes(statuses, next, runtime, leaf, at, g);
    case Calls(native, onAnswer, onFailure) =>
      ReturningGoes(statuses, native, statuses(runtime).answered, at, g);
      var call := GoCall(statuses, Returning(statuses, native, statuses(runtime).answered), at, g);
      EndingGoes(statuses, onAnswer, runtime, leaf, at, call.go);
    case Scoped(inner, onAnswer, onFailure) =>
      var begun := Begun(g, runtime);
      EndingGoes(statuses, inner, runtime, leaf, |g.runs|, begun);
      assert begun.runs[..|g.runs|] == g.runs;
      var run := Finished(GoHost(statuses, Ending(statuses, inner, runtime, leaf), |g.runs|, begun), g);
      EndingGoes(statuses, onAnswer, runtime, leaf, at, run.go);
    case Rooted(other, inner, onAnswer, onFailure) =>
      if other in g.open {
        EndingGoes(statuses, onFailure, runtime, leaf, at, g);
      } else {
        var begun := Begun(g.(open := g.open + [other]), other);
        EndingGoes(statuses, inner, other, leaf, |g.runs|, begun);
        assert begun.runs[..|g.runs|] == g.runs;
        var run := Finished(GoHost(statuses, Ending(statuses, inner, other, leaf), |g.runs|, begun), g);
        EndingGoes(statuses, onAnswer, runtime, leaf, at, run.go);
      }
  }

  lemma LeafGoes(statuses: nat -> Statuses, leaf: Host, at: nat, g: Go)
    requires IsLeaf(leaf) && !leaf.Fails? && at < |g.runs|
    ensures var run := GoHost(statuses, leaf, at, g);
            run.end == Answered && run.go.runs == g.runs && (leaf.Makes? ==> HasMade(run.go.log, leaf.item))
  {
    if leaf.Makes? {
      var made := g.(log := g.log.(made := g.log.made + [(g.runs[at].id, leaf.item)]));
      assert GoHost(statuses, leaf.next, at, made) == GoHostRun(Answered, made);
      assert made.log.made[|g.log.made|].1 == leaf.item;
    }
  }

  lemma {:induction false} ReturningGoes(statuses: nat -> Statuses, n: Native, status: int, at: nat, g: Go)
    requires at < |g.runs|
    ensures var call := GoCall(statuses, Returning(statuses, n, status), at, g);
            call.end == Outcome(statuses(g.runs[at].runtime), status, None) && call.go.runs == g.runs
    decreases n, 1
  {
    var calls := g.runs[at].calls;
    var calling := g.(runs := g.runs[at := g.runs[at].(calls := calls + [None])]);
    ReturningRuns(statuses, n, status, calling);
    assert (calls + [None])[..|calls|] == calls;
  }

  lemma {:induction false} ReturningRuns(statuses: nat -> Statuses, n: Native, status: int, g: Go)
    ensures var run := GoNative(statuses, Returning(statuses, n, status), g);
            run.end == Status(status) && run.go.runs == g.runs
    decreases n, 0
  {
    if n.CallsBack? {
      if !Calling(g.runs, n.runtime) {
        ReturningRuns(statuses, n.onFailed, status, g);
      } else {
        var at := Innermost(g.runs, n.runtime).value;
        EndingGoes(statuses, n.host, n.runtime, Answers, at, g);
        LeftNothing(g.runs, at);
        ReturningRuns(statuses, n.onAnswered, status, GoCalledBack(statuses, Ending(statuses, n.host, n.runtime, Answers), at, g).go);
      }
    }
  }

  /** Kept run by run it makes something that by its meaning is not made. */
  predicate HostSeen(statuses: nat -> Statuses, m: Host, at: nat, g: Go, runtime: nat, keeper: nat, item: int)
    requires at < |g.runs|
  {
    && HasMade(GoHost(statuses, m, at, g).go.log, item)
    && Unmade(HostMeans(statuses, m, runtime, keeper, g.open, g.log).log, item)
  }

  predicate NativeSeen(statuses: nat -> Statuses, m: Native, g: Go, runtime: nat, keeper: nat, item: int) {
    && HasMade(GoNative(statuses, m, g).go.log, item)
    && Unmade(NativeMeans(statuses, m, runtime, keeper, g.open, g.log).log, item)
  }

  lemma MadeStays(before: Log, after: Log, item: int)
    requires HasMade(before, item) && before.made <= after.made
    ensures HasMade(after, item)
  {
    var i :| 0 <= i < |before.made| && before.made[i].1 == item;
    assert after.made[i] == before.made[i];
  }

  /** Of a tree with a callback in it that goes through a library called further out, one of the same
      shape that reaches it and is seen to. */
  lemma {:induction false} HostIsSeen(statuses: nat -> Statuses, h: Host, at: nat, g: Go, runtime: nat, keeper: nat,
                                      busy: set<nat>, item: int) returns (m: Host)
    requires Stands(g, at, runtime, keeper, busy) && !Proper(h, runtime, g.open, busy) && Unmade(g.log, item)
    ensures HostShape(m) == HostShape(h) && HostSeen(statuses, m, at, g, runtime, keeper, item)
    decreases h, 1
  {
    match h
    case Makes(_, next) => m := HostIsSeen(statuses, next, at, g, runtime, keeper, busy, item);
    case Calls(_, _, _) => m := CallsIsSeen(statuses, h, at, g, runtime, keeper, busy, item);
    case Scoped(_, _, _) => m := ScopedIsSeen(statuses, h, at, g, runtime, keeper, busy, item);
    case Rooted(other, inner, onAnswer, onFailure) =>
      if other in g.open {
        var rest := HostIsSeen(statuses, onFailure, at, g, runtime, keeper, busy, item);
        m := Rooted(other, Ending(statuses, inner, other, Answers), Ending(statuses, onAnswer, runtime, Answers), rest);
      } else {
        m := RootedIsSeen(statuses, h, at, g, runtime, keeper, busy, item);
      }
  }

  lemma {:induction false} CallsIsSeen(statuses: nat -> Statuses, h: Host, at: nat, g: Go, runtime: nat, keeper: nat,
                                       busy: set<nat>, item: int) returns (m: Host)
    requires h.Calls?
    requires Stands(g, at, runtime, keeper, busy) && !Proper(h, runtime, g.open, busy) && Unmade(g.log, item)
    ensures HostShape(m) == HostShape(h) && HostSeen(statuses, m, at, g, runtime, keeper, item)
    decreases h, 0
  {
    var answers, failure := Ending(statuses, h.onAnswer, runtime, Answers), Ending(statuses, h.onFailure, runtime, Answers);
    if !ProperNative(h.native, runtime, g.open, busy + {runtime}) {
      var native := CallIsSeen(statuses, h.native, at, g, runtime, keeper, busy, item);
      m := Calls(native, answers, failure);
      var call, means := GoCall(statuses, native, at, g), CallMeans(statuses, native, runtime, keeper, g.open, g.log);
      MadeStays(call.go.log, GoHost(statuses, m, at, g).go.log, item);
      EndingMeans(statuses, h.onAnswer, runtime, Answers, keeper, g.open, means.log, item);
      EndingMeans(statuses, h.onFailure, runtime, Answers, keeper, g.open, means.log, item);
    } else {
      var done := !Proper(h.onAnswer, runtime, g.open, busy);
      var status := statuses(runtime).answered + if done then 0 else 1;
      var native := Returning(statuses, h.native, status);
      ProperNativeByShape(h.native, runtime, g.open, busy + {runtime});
      ProperNativeByShape(native, runtime, g.open, busy + {runtime});
      GoMeansCall(statuses, native, at, g, runtime, keeper, busy);
      ReturningMeans(statuses, h.native, status, runtime, keeper, g.open, g.log, item);
      var after := g.(log := CallMeans(statuses, native, runtime, keeper, g.open, g.log).log);
      if done {
        var rest := HostIsSeen(statuses, h.onAnswer, at, after, runtime, keeper, busy, item);
        m := Calls(native, rest, failure);
      } else {
        var rest := HostIsSeen(statuses, h.onFailure, at, after, runtime, keeper, busy, item);
        m := Calls(native, answers, rest);
      }
    }
  }

  /** Inside a run begun. */
  lemma {:induction false} InnerIsSeen(statuses: nat -> Statuses, h: Host, at: nat, g: Go, runtime: nat, keeper: nat, busy: set<nat>,
                                       other: nat, open: seq<nat>, item: int) returns (m: Host)
    requires Stands(g, at, runtime, keeper, busy) && other in open && (forall x :: x in g.open ==> x in open)
    requires !Proper(h, other, open, busy - {other}) && Unmade(g.log, item)
    ensures HostShape(m) == HostShape(h)
    ensures HasMade(Finished(GoHost(statuses, m, |g.runs|, Begun(g.(open := open), other)), g).go.log, item)
    ensures Unmade(HostMeans(statuses, m, other, g.log.next, open, g.log.(next := g.log.next + 1)).log, item)
    decreases h, 2
  {
    StandsBegun(g, at, runtime, keeper, busy, other, open);
    m := HostIsSeen(statuses, h, |g.runs|, Begun(g.(open := open), other), other, g.log.next, busy - {other}, item);
  }

  /** What is seen inside a run stays seen after it. */
  lemma InsideIsSeen(statuses: nat -> Statuses, m: Host, h: Host, at: nat, g: Go, runtime: nat, keeper: nat, item: int,
                     inner: Host, other: nat, open: seq<nat>)
    requires at < |g.runs| && g.runs[at].runtime == runtime && (h.Scoped? || h.Rooted?)
    requires var answers, failure := Ending(statuses, h.onAnswer, runtime, Answers), Ending(statuses, h.onFailure, runtime, Answers);
      || (m == Scoped(inner, answers, failure) && other == runtime && open == g.open)
      || (m == Rooted(other, inner, answers, failure) && other !in g.open && open == g.open + [other])
    requires HasMade(Finished(GoHost(statuses, inner, |g.runs|, Begun(g.(open := open), other)), g).go.log, item)
    requires Unmade(HostMeans(statuses, inner, other, g.log.next, open, g.log.(next := g.log.next + 1)).log, item)
    ensures HostSeen(statuses, m, at, g, runtime, keeper, item)
  {
    var run := Finished(GoHost(statuses, inner, |g.runs|, Begun(g.(open := open), other)), g);
    assert run.go.log.made <= GoHost(statuses, m, at, g).go.log.made;
    MadeStays(run.go.log, GoHost(statuses, m, at, g).go.log, item);
    var means := HostMeans(statuses, inner, other, g.log.next, open, g.log.(next := g.log.next + 1));
    EndingMeans(statuses, h.onAnswer, runtime, Answers, keeper, g.open, means.log, item);
    EndingMeans(statuses, h.onFailure, runtime, Answers, keeper, g.open, means.log, item);
  }

  /** What is seen after a run is seen. */
  lemma AfterIsSeen(statuses: nat -> Statuses, m: Host, at: nat, g: Go, runtime: nat, keeper: nat, item: int,
                    inner: Host, other: nat, open: seq<nat>, end: HostEnd, after: Go, rest: Host)
    requires at < |g.runs| && g.runs[at].runtime == runtime && at < |after.runs| && after.open == g.open && !end.Panicked?
    requires
      || (m.Scoped? && m.inner == inner && other == runtime && open == g.open)
      || (m.Rooted? && m.runtime == other && m.inner == inner && other !in g.open && open == g.open + [other])
    requires rest == if end.Answered? then m.onAnswer else m.onFailure
    requires Finished(GoHost(statuses, inner, |g.runs|, Begun(g.(open := open), other)), g) == GoHostRun(end, after)
    requires HostMeans(statuses, inner, other, g.log.next, open, g.log.(next := g.log.next + 1)) == HostRun(end, after.log)
    requires HostSeen(statuses, rest, at, after, runtime, keeper, item)
    ensures HostSeen(statuses, m, at, g, runtime, keeper, item)
  {
  }

  lemma {:induction false} ScopedIsSeen(statuses: nat -> Statuses, h: Host, at: nat, g: Go, runtime: nat, keeper: nat,
                                        busy: set<nat>, item: int) returns (m: Host)
    requires h.Scoped?
    requires Stands(g, at, runtime, keeper, busy) && !Proper(h, runtime, g.open, busy) && Unmade(g.log, item)
    ensures HostShape(m) == HostShape(h) && HostSeen(statuses, m, at, g, runtime, keeper, item)
    decreases h, 0
  {
    var answers, failure := Ending(statuses, h.onAnswer, runtime, Answers), Ending(statuses, h.onFailure, runtime, Answers);
    if !Proper(h.inner, runtime, g.open, busy - {runtime}) {
      var inner := InnerIsSeen(statuses, h.inner, at, g, runtime, keeper, busy, runtime, g.open, item);
      m := Scoped(inner, answers, failure);
      InsideIsSeen(statuses, m, h, at, g, runtime, keeper, item, inner, runtime, g.open);
    } else {
      var done := !Proper(h.onAnswer, runtime, g.open, busy);
      var inner, after := InnerEnding(statuses, h.inner, done, at, g, runtime, keeper, busy, runtime, g.open, item);
      if done {
        var rest := HostIsSeen(statuses, h.onAnswer, at, after, runtime, keeper, busy, item);
        m := Scoped(inner, rest, failure);
        AfterIsSeen(statuses, m, at, g, runtime, keeper, item, inner, runtime, g.open, Answered, after, rest);
      } else {
        var rest := HostIsSeen(statuses, h.onFailure, at, after, runtime, keeper, busy, item);
        m := Scoped(inner, answers, rest);
        AfterIsSeen(statuses, m, at, g, runtime, keeper, item, inner, runtime, g.open, Failed(Implementation(0)), after, rest);
      }
    }
  }

  lemma {:induction false} RootedIsSeen(statuses: nat -> Statuses, h: Host, at: nat, g: Go, runtime: nat, keeper: nat,
                                        busy: set<nat>, item: int) returns (m: Host)
    requires h.Rooted? && h.runtime !in g.open
    requires Stands(g, at, runtime, keeper, busy) && !Proper(h, runtime, g.open, busy) && Unmade(g.log, item)
    ensures HostShape(m) == HostShape(h) && HostSeen(statuses, m, at, g, runtime, keeper, item)
    decreases h, 0
  {
    var other, open := h.runtime, g.open + [h.runtime];
    var answers, failure := Ending(statuses, h.onAnswer, runtime, Answers), Ending(statuses, h.onFailure, runtime, Answers);
    if !Proper(h.inner, other, open, busy - {other}) {
      var inner := InnerIsSeen(statuses, h.inner, at, g, runtime, keeper, busy, other, open, item);
      m := Rooted(other, inner, answers, failure);
      InsideIsSeen(statuses, m, h, at, g, runtime, keeper, item, inner, other, open);
    } else {
      var done := !Proper(h.onAnswer, runtime, g.open, busy);
      var inner, after := InnerEnding(statuses, h.inner, done, at, g, runtime, keeper, busy, other, open, item);
      if done {
        var rest := HostIsSeen(statuses, h.onAnswer, at, after, runtime, keeper, busy, item);
        m := Rooted(other, inner, rest, failure);
        AfterIsSeen(statuses, m, at, g, runtime, keeper, item, inner, other, open, Answered, after, rest);
      } else {
        var rest := HostIsSeen(statuses, h.onFailure, at, after, runtime, keeper, busy, item);
        m := Rooted(other, inner, answers, rest);
        AfterIsSeen(statuses, m, at, g, runtime, keeper, item, inner, other, open, Failed(Implementation(0)), after, rest);
      }
    }
  }

  /** A run begun, whose inside goes as it means, made to answer or to fail. */
  lemma InnerEnding(statuses: nat -> Statuses, h: Host, done: bool, at: nat, g: Go, runtime: nat, keeper: nat, busy: set<nat>,
                    other: nat, open: seq<nat>, item: int) returns (m: Host, after: Go)
    requires Stands(g, at, runtime, keeper, busy) && other in open && (forall x :: x in g.open ==> x in open)
    requires Proper(h, other, open, busy - {other}) && Unmade(g.log, item)
    ensures HostShape(m) == HostShape(h)
    ensures Stands(after, at, runtime, keeper, busy) && after.open == g.open && Unmade(after.log, item)
    ensures var end := if done then Answered else Failed(Implementation(0));
      && Finished(GoHost(statuses, m, |g.runs|, Begun(g.(open := open), other)), g) == GoHostRun(end, after)
      && HostMeans(statuses, m, other, g.log.next, open, g.log.(next := g.log.next + 1)) == HostRun(end, after.log)
  {
    var leaf := if done then Answers else Fails(Implementation(0));
    m := Ending(statuses, h, other, leaf);
    ProperByShape(h, other, open, busy - {other});
    ProperByShape(m, other, open, busy - {other});
    GoMeansWithin(statuses, m, at, g, runtime, keeper, busy, other, open);
    EndingMeans(statuses, h, other, leaf, g.log.next, open, g.log.(next := g.log.next + 1), item);
    after := g.(log := HostMeans(statuses, m, other, g.log.next, open, g.log.(next := g.log.next + 1)).log);
  }

  lemma {:induction false} CallIsSeen(statuses: nat -> Statuses, n: Native, at: nat, g: Go, runtime: nat, keeper: nat,
                                      busy: set<nat>, item: int) returns (m: Native)
    requires Stands(g, at, runtime, keeper, busy) && !ProperNative(n, runtime, g.open, busy + {runtime}) && Unmade(g.log, item)
    ensures NativeShape(m) == NativeShape(n)
    ensures HasMade(GoCall(statuses, m, at, g).go.log, item)
    ensures Unmade(CallMeans(statuses, m, runtime, keeper, g.open, g.log).log, item)
    decreases n, 1
  {
    var calls := g.runs[at].calls;
    StandsCalling(g, at, runtime, keeper, busy, calls + [None]);
    var calling := g.(runs := g.runs[at := g.runs[at].(calls := calls + [None])]);
    m := NativeIsSeen(statuses, n, at, calling, runtime, keeper, busy + {runtime}, item);
  }

  lemma {:induction false} NativeIsSeen(statuses: nat -> Statuses, n: Native, at: nat, g: Go, runtime: nat, keeper: nat,
                                        busy: set<nat>, item: int) returns (m: Native)
    requires Stands(g, at, runtime, keeper, busy) && g.runs[at].calls != []
    requires !ProperNative(n, runtime, g.open, busy) && Unmade(g.log, item)
    ensures NativeShape(m) == NativeShape(n) && NativeSeen(statuses, m, g, runtime, keeper, item)
    decreases n, 0
  {
    assert BusyAt(g.runs, busy, n.runtime);
    if n.runtime == runtime {
      m := OwnIsSeen(statuses, n, at, g, runtime, keeper, busy, item);
    } else {
      var answered := Returning(statuses, n.onAnswered, 0);
      if Calling(g.runs, n.runtime) {
        var leaf := Makes(item, Answers);
        var host, failed := Ending(statuses, n.host, n.runtime, leaf), Returning(statuses, n.onFailed, 0);
        m := CallsBack(n.runtime, host, answered, failed);
        var on := Innermost(g.runs, n.runtime).value;
        EndingGoes(statuses, n.host, n.runtime, leaf, on, g);
        MadeStays(GoCalledBack(statuses, host, on, g).go.log, GoNative(statuses, m, g).go.log, item);
        ReturningMeans(statuses, n.onFailed, 0, runtime, keeper, g.open, g.log, item);
      } else {
        var rest := NativeIsSeen(statuses, n.onFailed, at, g, runtime, keeper, busy, item);
        m := CallsBack(n.runtime, Ending(statuses, n.host, n.runtime, Answers), answered, rest);
      }
    }
  }

  /** A callback through the library called, in which or after which the one to be reached stands. */
  lemma {:induction false} OwnIsSeen(statuses: nat -> Statuses, n: Native, at: nat, g: Go, runtime: nat, keeper: nat,
                                     busy: set<nat>, item: int) returns (m: Native)
    requires n.CallsBack? && n.runtime == runtime
    requires Stands(g, at, runtime, keeper, busy) && g.runs[at].calls != []
    requires !ProperNative(n, runtime, g.open, busy) && Unmade(g.log, item)
    ensures NativeShape(m) == NativeShape(n) && NativeSeen(statuses, m, g, runtime, keeper, item)
    decreases n, 0, 0
  {
    var answered, failed := Returning(statuses, n.onAnswered, 0), Returning(statuses, n.onFailed, 0);
    if !Proper(n.host, runtime, g.open, busy) {
      var host := HostIsSeen(statuses, n.host, at, g, runtime, keeper, busy, item);
      m := CallsBack(runtime, host, answered, failed);
      MadeStays(GoCalledBack(statuses, host, at, g).go.log, GoNative(statuses, m, g).go.log, item);
      var means := HostMeans(statuses, host, runtime, keeper, g.open, g.log);
      ReturningMeans(statuses, n.onAnswered, 0, runtime, keeper, g.open, means.log, item);
      ReturningMeans(statuses, n.onFailed, 0, runtime, keeper, g.open, means.log, item);
    } else {
      var done := !ProperNative(n.onAnswered, runtime, g.open, busy);
      var host, left := OwnEnding(statuses, n.host, done, at, g, runtime, keeper, busy, item);
      if done {
        var rest := NativeIsSeen(statuses, n.onAnswered, at, left, runtime, keeper, busy, item);
        m := CallsBack(runtime, host, rest, failed);
      } else {
        var rest := NativeIsSeen(statuses, n.onFailed, at, left, runtime, keeper, busy, item);
        m := CallsBack(runtime, host, answered, rest);
      }
    }
  }

  lemma OwnEnding(statuses: nat -> Statuses, h: Host, done: bool, at: nat, g: Go, runtime: nat, keeper: nat, busy: set<nat>,
                  item: int) returns (m: Host, left: Go)
    requires Stands(g, at, runtime, keeper, busy) && g.runs[at].calls != []
    requires Proper(h, runtime, g.open, busy) && Unmade(g.log, item)
    ensures HostShape(m) == HostShape(h)
    ensures Stands(left, at, runtime, keeper, busy) && left.open == g.open && left.runs[at].calls != [] && Unmade(left.log, item)
    ensures var end := if done then Answered else Failed(Implementation(0));
      && GoCalledBack(statuses, m, at, g) == GoHostRun(end, left)
      && HostMeans(statuses, m, runtime, keeper, g.open, g.log) == HostRun(end, left.log)
  {
    var leaf := if done then Answers else Fails(Implementation(0));
    m := Ending(statuses, h, runtime, leaf);
    ProperByShape(h, runtime, g.open, busy);
    ProperByShape(m, runtime, g.open, busy);
    GoMeansHost(statuses, m, at, g, runtime, keeper, busy);
    EndingMeans(statuses, h, runtime, leaf, keeper, g.open, g.log, item);
    left := GoCalledBack(statuses, m, at, g).go;
    StandsShape(g, left, at, runtime, keeper, busy);
  }

  lemma {:induction false} SomethingUnmade(made: seq<(nat, int)>) returns (item: int)
    ensures forall i :: 0 <= i < |made| ==> made[i].1 < item
  {
    if made == [] {
      item := 0;
    } else {
      item := SomethingUnmade(made[1..]);
      if item <= made[0].1 { item := made[0].1 + 1; }
      assert forall i :: 1 <= i < |made| ==> made[i] == made[1..][i - 1];
    }
  }

  /** A call kept run by run comes to what it means, every run left as it was. */
  predicate ComesToMeaning(statuses: nat -> Statuses, n: Native, at: nat, g: Go, runtime: nat, keeper: nat)
    requires at < |g.runs|
  {
    var call := CallMeans(statuses, n, runtime, keeper, g.open, g.log);
    GoCall(statuses, n, at, g) == GoCallRun(call.end, g.(log := call.log))
  }

  /** Every tree of a shape comes to what it means, whatever is made in it and however its leaves end,
      exactly where no callback in it goes through a library called further out with its call going on
      in its innermost run. */
  lemma ProperExactly(statuses: nat -> Statuses, n: Native, at: nat, g: Go, runtime: nat, keeper: nat, busy: set<nat>)
    requires Stands(g, at, runtime, keeper, busy)
    ensures ProperNative(n, runtime, g.open, busy + {runtime}) <==>
      forall m: Native :: NativeShape(m) == NativeShape(n) ==> ComesToMeaning(statuses, m, at, g, runtime, keeper)
  {
    if ProperNative(n, runtime, g.open, busy + {runtime}) {
      forall m: Native | NativeShape(m) == NativeShape(n) ensures ComesToMeaning(statuses, m, at, g, runtime, keeper) {
        ProperNativeByShape(n, runtime, g.open, busy + {runtime});
        ProperNativeByShape(m, runtime, g.open, busy + {runtime});
        GoMeansCall(statuses, m, at, g, runtime, keeper, busy);
      }
    } else {
      var item := SomethingUnmade(g.log.made);
      var m := CallIsSeen(statuses, n, at, g, runtime, keeper, busy, item);
      assert !ComesToMeaning(statuses, m, at, g, runtime, keeper);
    }
  }

  // ----- an input on which it is not -----

  function Numbered(runtime: nat): Statuses {
    Statuses(0, 1, 2, 3, [])
  }

  /** A call into library 1 that calls back an implementation of library 0's, which fails. */
  const ACROSS: Native := CallsBack(0, Fails(Implementation(7)), Returns(0), Returns(0))

  /** A call into library 0 that calls back an implementation opening a root run of library 1, and
      making that call in it; everything but the implementation called back across answers. */
  const AROUND: Native := CallsBack(0, Rooted(1, Calls(ACROSS, Answers, Answers), Answers, Answers), Returns(0), Returns(0))

  const LEFT: Option<Caught> := Some(CaughtFailure(Implementation(7)))

  lemma AcrossLeaves(g: Go)
    requires g.runs == [GoRun(0, 0, [None]), GoRun(1, 1, [])]
    ensures GoCall(Numbered, ACROSS, 1, g) == GoCallRun(Done, g.(runs := [GoRun(0, 0, [LEFT]), GoRun(1, 1, [])]))
  {
    var calling := g.(runs := g.runs[1 := GoRun(1, 1, [None])]);
    assert calling.runs == [GoRun(0, 0, [None]), GoRun(1, 1, [None])];
    assert calling.runs[..1] == [GoRun(0, 0, [None])];
    assert Innermost(calling.runs, 0) == Innermost([GoRun(0, 0, [None])], 0);
    var left := calling.(runs := LeftIn(calling.runs, 0, LEFT));
    var calls := calling.runs[0].calls;
    assert calls[..0] + [KeptFirst(calls[0], LEFT)] == [LEFT];
    assert left.runs == [GoRun(0, 0, [LEFT]), GoRun(1, 1, [None])];
    assert GoHost(Numbered, ACROSS.host, 0, calling) == GoHostRun(Failed(Implementation(7)), calling);
    assert GoNative(Numbered, Returns(0), left) == GoNativeRun(Status(0), left);
    assert GoNative(Numbered, ACROSS, calling) == GoNativeRun(Status(0), left);
    assert left.runs[1].calls[..0] == [];
    assert left.runs[1 := GoRun(1, 1, [])] == [GoRun(0, 0, [LEFT]), GoRun(1, 1, [])];
  }

  lemma InnerLeaves(rooted: Go)
    requires rooted.runs == [GoRun(0, 0, [None]), GoRun(1, 1, [])]
    ensures GoHost(Numbered, AROUND.host.inner, 1, rooted)
         == GoHostRun(Answered, rooted.(runs := [GoRun(0, 0, [LEFT]), GoRun(1, 1, [])]))
  {
    hide GoCall;
    AcrossLeaves(rooted);
    var left := rooted.(runs := [GoRun(0, 0, [LEFT]), GoRun(1, 1, [])]);
    assert GoHost(Numbered, Answers, 1, left) == GoHostRun(Answered, left);
  }

  lemma AroundLeaves(g: Go)
    requires g == Go([0], [GoRun(0, 0, [None])], Log(1, []))
    ensures GoHost(Numbered, AROUND.host, 0, g) == GoHostRun(Answered, g.(runs := [GoRun(0, 0, [LEFT])], log := Log(2, [])))
  {
    hide GoCall;
    var rooted := Go([0, 1], g.runs + [GoRun(1, 1, [])], Log(2, []));
    assert rooted == Begun(g.(open := g.open + [1]), 1);
    InnerLeaves(rooted);
    var left := rooted.(runs := [GoRun(0, 0, [LEFT]), GoRun(1, 1, [])]);
    assert left.runs[..1] == [GoRun(0, 0, [LEFT])];
    var answered := GoHostRun(Answered, g.(runs := [GoRun(0, 0, [LEFT])], log := Log(2, [])));
    assert Finished(GoHostRun(Answered, left), g) == answered;
    assert GoHost(Numbered, Answers, 0, answered.go) == answered;
  }

  /** The input: library 0 calls back a host, which calls into library 1 in a root run, and the callback
      made there goes through library 0 again. The outer call means `Done`; kept run by run it comes
      to the failure left by a callback made from the inner one. */
  lemma MisplacedFailure()
    ensures CallMeans(Numbered, AROUND, 0, 0, [0], Log(1, [])).end == Done
    ensures GoCall(Numbered, AROUND, 0, Go([0], [GoRun(0, 0, [])], Log(1, []))).end == Failing(OfHost(7))
    ensures !ProperNative(AROUND, 0, [0], {0})
  {
    AroundMeans();
    AroundComes();
    assert !ProperNative(ACROSS, 1, [0, 1], {0} - {1} + {1});
    assert [0] + [1] == [0, 1];
    assert !Proper(AROUND.host, 0, [0], {0});
  }

  lemma AroundMeans()
    ensures CallMeans(Numbered, AROUND, 0, 0, [0], Log(1, [])).end == Done
  {
    assert [0] + [1] == [0, 1];
    var run := NativeMeans(Numbered, ACROSS, 1, 1, [0, 1], Log(2, []));
    assert run == NativeRun([], Status(0), Log(2, []));
    assert HostMeans(Numbered, AROUND.host, 0, 0, [0], Log(1, [])).end == Answered;
  }

  lemma AroundRuns(calling: Go)
    requires calling == Go([0], [GoRun(0, 0, [None])], Log(1, []))
    ensures GoNative(Numbered, AROUND, calling) == GoNativeRun(Status(0), Go([0], [GoRun(0, 0, [LEFT])], Log(2, [])))
  {
    AroundLeaves(calling);
    var left := Go([0], [GoRun(0, 0, [LEFT])], Log(2, []));
    LeftSame(left.runs, 0, None);
    assert GoCalledBack(Numbered, AROUND.host, 0, calling) == GoHostRun(Answered, left);
    assert GoNative(Numbered, Returns(0), left) == GoNativeRun(Status(0), left);
    assert Innermost(calling.runs, 0) == Some(0);
  }

  /** A call comes to what the library answered and what was left for it. */
  lemma CallEnds(statuses: nat -> Statuses, n: Native, at: nat, g: Go, left: Go)
    requires at < |g.runs| && g.runs[at].calls == []
    requires GoNative(statuses, n, g.(runs := g.runs[at := g.runs[at].(calls := [None])])) == GoNativeRun(Status(0), left)
    requires at < |left.runs| && |left.runs[at].calls| == 1
    ensures GoCall(statuses, n, at, g).end == Outcome(statuses(g.runs[at].runtime), 0, left.runs[at].calls[0])
  {
    assert g.runs[at].calls + [None] == [None];
  }

  lemma AroundComes()
    ensures GoCall(Numbered, AROUND, 0, Go([0], [GoRun(0, 0, [])], Log(1, []))).end == Failing(OfHost(7))
  {
    var g, left := Go([0], [GoRun(0, 0, [])], Log(1, [])), Go([0], [GoRun(0, 0, [LEFT])], Log(2, []));
    assert g.runs[0 := GoRun(0, 0, [None])] == [GoRun(0, 0, [None])];
    AroundRuns(g.(runs := [GoRun(0, 0, [None])]));
    CallEnds(Numbered, AROUND, 0, g, left);
  }
}
