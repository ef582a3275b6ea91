/** Calls into a library and the host implementations it calls back, on one thread
    (bindings/rust/runtime/src/run.rs; `Statuses::answered` in bindings/rust/runtime/src/failure.rs):
    one stack of calls and one of root runs, changed in place by guards, against the meaning of the
    tree of calls they carry out. */
module CallFrames {
  import opened Options

  datatype Failure =
    | OfHost(error: int)
    | Foreign
    | ProtocolViolation
    | Unbound
    | Abort(status: int, name: Option<string>)

  /** What a host implementation answers where it fails: what a generated closure says went wrong,
      in the implementation or in crossing a value, or an error of no shape this crate knows. */
  datatype HostError = Implementation(error: int) | Crossing(failure: Failure) | Unshaped(error: int)

  /** What a host implementation does: makes values, calls into its library, opens a run inside its
      own or a root run of another library, and at last answers, fails or panics. What is done after
      a call or a run comes back is read off how it came back. */
  datatype Host =
    | Answers
    | Fails(error: HostError)
    | Panics(payload: int)
    | Makes(item: int, next: Host)
    | Calls(native: Native, onAnswer: Host, onFailure: Host)
    | Scoped(inner: Host, onAnswer: Host, onFailure: Host)
    | Rooted(runtime: nat, inner: Host, onAnswer: Host, onFailure: Host)

  /** A call as a tree: a leaf is a status or a panic of whoever made the call, and a callback branches
      on whether the implementation answered. */
  datatype Native =
    | Returns(status: int)
    | Unwinds(payload: int)
    | CallsBack(runtime: nat, host: Host, onAnswered: Native, onFailed: Native)

  datatype HostEnd = Answered | Failed(error: HostError) | Panicked(payload: int)
  datatype NativeEnd = Status(status: int) | Unwound(payload: int)
  datatype CallEnd = Done | Failing(failure: Failure) | Raising(payload: int)

  datatype Statuses = Statuses(answered: int, hostException: int, protocolViolation: int, unbound: int,
                               named: seq<(string, int)>)

  // ----- what a tree of calls means, with no stack -----

  /** What was made so far, each under the run that keeps it, and the number of the next run. */
  datatype Log = Log(next: nat, made: seq<(nat, int)>)

  datatype HostRun = HostRun(end: HostEnd, log: Log)
  datatype NativeRun = NativeRun(own: seq<HostEnd>, end: NativeEnd, log: Log)
  datatype CallRun = CallRun(end: CallEnd, log: Log)

  /** What a callback leaves, where it leaves something. */
  datatype Caught = CaughtFailure(error: HostError) | CaughtPanic(payload: int)

  function CaughtOf(end: HostEnd): Option<Caught> {
    match end
    case Answered => None
    case Failed(error) => Some(CaughtFailure(error))
    case Panicked(payload) => Some(CaughtPanic(payload))
  }

  /** The first failure among how a call's own callbacks ended. */
  function FirstFailure(own: seq<HostEnd>): (r: Option<Caught>)
    ensures r.None? <==> forall i :: 0 <= i < |own| ==> own[i].Answered?
    ensures r.Some? ==> exists i :: 0 <= i < |own| && CaughtOf(own[i]) == r && forall j :: 0 <= j < i ==> own[j].Answered?
  {
    if own == [] then None
    else if !own[0].Answered? then CaughtOf(own[0])
    else
      var r := FirstFailure(own[1..]);
      assert r.Some? ==> exists i :: 1 <= i < |own| && CaughtOf(own[i]) == r && forall j :: 0 <= j < i ==> own[j].Answered? by {
        if r.Some? {
          var i :| 0 <= i < |own| - 1 && CaughtOf(own[1..][i]) == r && forall j :: 0 <= j < i ==> own[1..][j].Answered?;
          assert CaughtOf(own[i + 1]) == r;
          assert forall j :: 1 <= j < i + 1 ==> own[j] == own[1..][j - 1];
        }
      }
      r
  }

  /** The name a status is reported under: that of the first entry numbered so, and none where no entry is. */
  predicate Names(named: seq<(string, int)>, status: int, name: Option<string>) {
    match name
    case None => forall i :: 0 <= i < |named| ==> named[i].1 != status
    case Some(it) => exists i :: 0 <= i < |named| && named[i] == (it, status) && forall j :: 0 <= j < i ==> named[j].1 != status
  }

  function NameOf(named: seq<(string, int)>, status: int): (r: Option<string>)
    ensures Names(named, status, r)
  {
    if named == [] then None
    else if named[0].1 == status then Some(named[0].0)
    else
      var r := NameOf(named[1..], status);
      NamesLater(named, status, r);
      r
  }

  lemma NamesLater(named: seq<(string, int)>, status: int, name: Option<string>)
    requires named != [] && named[0].1 != status && Names(named[1..], status, name)
    ensures Names(named, status, name)
  {
    assert forall i :: 0 < i < |named| ==> named[i] == named[1..][i - 1];
    if name.Some? {
      var i :| 0 <= i < |named| - 1 && named[1..][i] == (name.value, status) && forall j :: 0 <= j < i ==> named[1..][j].1 != status;
      assert named[i + 1] == (name.value, status);
    }
  }

  /** What a call comes to: what was left for it, whatever the status, and otherwise its status. */
  function Outcome(statuses: Statuses, status: int, caught: Option<Caught>): CallEnd {
    match caught
    case Some(CaughtPanic(payload)) => Raising(payload)
    case Some(CaughtFailure(error)) =>
      Failing(match error
              case Implementation(e) => OfHost(e)
              case Crossing(failure) => failure
              case Unshaped(e) => OfHost(e))
    case None =>
      if status == statuses.answered then Done
      else if status == statuses.hostException || status == statuses.protocolViolation then Failing(ProtocolViolation)
      else if status == statuses.unbound then Failing(Unbound)
      else Failing(Abort(status, NameOf(statuses.named, status)))
  }

  /** The end and the log of `h` done in the run numbered `keeper`, where a root run of any of `open` is
      refused. */
  function HostMeans(statuses: nat -> Statuses, h: Host, runtime: nat, keeper: nat, open: seq<nat>, log: Log): HostRun
    decreases h
  {
    match h
    case Answers => HostRun(Answered, log)
    case Fails(error) => HostRun(Failed(error), log)
    case Panics(payload) => HostRun(Panicked(payload), log)
    case Makes(item, next) =>
      HostMeans(statuses, next, runtime, keeper, open, log.(made := log.made + [(keeper, item)]))
    case Calls(native, onAnswer, onFailure) =>
      var call := CallMeans(statuses, native, runtime, keeper, open, log);
      (match call.end
       case Done => HostMeans(statuses, onAnswer, runtime, keeper, open, call.log)
       case Failing(_) => HostMeans(statuses, onFailure, runtime, keeper, open, call.log)
       case Raising(payload) => HostRun(Panicked(payload), call.log))
    case Scoped(inner, onAnswer, onFailure) =>
      var run := HostMeans(statuses, inner, runtime, log.next, open, log.(next := log.next + 1));
      (match run.end
       case Answered => HostMeans(statuses, onAnswer, runtime, keeper, open, run.log)
       case Failed(_) => HostMeans(statuses, onFailure, runtime, keeper, open, run.log)
       case Panicked(_) => run)
    case Rooted(other, inner, onAnswer, onFailure) =>
      if other in open then HostMeans(statuses, onFailure, runtime, keeper, open, log)
      else
        var run := HostMeans(statuses, inner, other, log.next, open + [other], log.(next := log.next + 1));
        (match run.end
         case Answered => HostMeans(statuses, onAnswer, runtime, keeper, open, run.log)
         case Failed(_) => HostMeans(statuses, onFailure, runtime, keeper, open, run.log)
         case Panicked(_) => run)
  }

  /** A callback through another library than the one called is no callback of this call's: nothing is
      run, and the library is told it failed. */
  function NativeMeans(statuses: nat -> Statuses, n: Native, runtime: nat, keeper: nat, open: seq<nat>, log: Log): NativeRun
    decreases n, 0
  {
    match n
    case Returns(status) => NativeRun([], Status(status), log)
    case Unwinds(payload) => NativeRun([], Unwound(payload), log)
    case CallsBack(through, host, onAnswered, onFailed) =>
      if through != runtime then NativeMeans(statuses, onFailed, runtime, keeper, open, log)
      else
        var run := HostMeans(statuses, host, runtime, keeper, open, log);
        var rest := NativeMeans(statuses, if run.end.Answered? then onAnswered else onFailed, runtime, keeper, open, run.log);
        rest.(own := [run.end] + rest.own)
  }

  function CallMeans(statuses: nat -> Statuses, n: Native, runtime: nat, keeper: nat, open: seq<nat>, log: Log): CallRun
    decreases n, 1
  {
    var run := NativeMeans(statuses, n, runtime, keeper, open, log);
    CallRun(match run.end
            case Status(status) => Outcome(statuses(runtime), status, FirstFailure(run.own))
            case Unwound(payload) => Raising(payload),
            run.log)
  }

  lemma {:induction false} FirstIs(own: seq<HostEnd>, i: nat)
    requires i < |own| && !own[i].Answered? && forall j :: 0 <= j < i ==> own[j].Answered?
    ensures FirstFailure(own) == CaughtOf(own[i])
  {
    if i > 0 {
      assert own[1..][i - 1] == own[i];
      FirstIs(own[1..], i - 1);
    }
  }

  /** Where a call's own callbacks did not all answer, it comes to what the first that did not left,
      whatever the library answered. */
  lemma CallComesToTheFirst(statuses: nat -> Statuses, n: Native, runtime: nat, keeper: nat, open: seq<nat>, log: Log, i: nat)
    requires var run := NativeMeans(statuses, n, runtime, keeper, open, log);
      && run.end.Status? && i < |run.own| && !run.own[i].Answered?
      && forall j :: 0 <= j < i ==> run.own[j].Answered?
    ensures var own, end := NativeMeans(statuses, n, runtime, keeper, open, log).own, CallMeans(statuses, n, runtime, keeper, open, log).end;
      match own[i]
      case Panicked(payload) => end == Raising(payload)
      case Failed(Crossing(failure)) => end == Failing(failure)
      case Failed(error) => end == Failing(OfHost(error.error))
      case Answered => false
  {
    FirstIs(NativeMeans(statuses, n, runtime, keeper, open, log).own, i);
  }

  /** Where they all answered it comes to its status, whatever failed in calls made meanwhile: done for the
      one status that says so, a protocol violation for the two that say a callback failed, unbound for its
      own, and for every other status an abort under the name it is numbered by. The first of these a status
      is decides, the library's numbers being what they are. */
  lemma CallComesToItsStatus(statuses: nat -> Statuses, n: Native, runtime: nat, keeper: nat, open: seq<nat>, log: Log)
    requires var run := NativeMeans(statuses, n, runtime, keeper, open, log);
      run.end.Status? && forall i :: 0 <= i < |run.own| ==> run.own[i].Answered?
    ensures var status, end := NativeMeans(statuses, n, runtime, keeper, open, log).end.status, CallMeans(statuses, n, runtime, keeper, open, log).end;
      var it := statuses(runtime);
      && (end == Done <==> status == it.answered)
      && (end == Failing(ProtocolViolation) <==> status != it.answered && status in {it.hostException, it.protocolViolation})
      && (end == Failing(Unbound) <==> status == it.unbound && status !in {it.answered, it.hostException, it.protocolViolation})
      && (status !in {it.answered, it.hostException, it.protocolViolation, it.unbound} <==>
            exists name :: end == Failing(Abort(status, name)) && Names(it.named, status, name))
  {
    var run, it := NativeMeans(statuses, n, runtime, keeper, open, log), statuses(runtime);
    assert FirstFailure(run.own).None?;
    assert Names(it.named, run.end.status, NameOf(it.named, run.end.status));
  }

  /** A run opened goes on as what was done in it came back: past it where that answered, by the other way
      where it failed, and not at all where it panicked; and the same of a call. */
  lemma GoesOnAsItCameBack(statuses: nat -> Statuses, runtime: nat, keeper: nat, open: seq<nat>, log: Log, other: nat,
                           onAnswer: Host, onFailure: Host, error: HostError, payload: int, status: int)
    ensures var later := log.(next := log.next + 1);
      var answered, failed := HostMeans(statuses, onAnswer, runtime, keeper, open, later), HostMeans(statuses, onFailure, runtime, keeper, open, later);
      && HostMeans(statuses, Scoped(Answers, onAnswer, onFailure), runtime, keeper, open, log) == answered
      && HostMeans(statuses, Scoped(Fails(error), onAnswer, onFailure), runtime, keeper, open, log) == failed
      && HostMeans(statuses, Scoped(Panics(payload), onAnswer, onFailure), runtime, keeper, open, log) == HostRun(Panicked(payload), later)
      && (other !in open ==>
            && HostMeans(statuses, Rooted(other, Answers, onAnswer, onFailure), runtime, keeper, open, log) == answered
            && HostMeans(statuses, Rooted(other, Fails(error), onAnswer, onFailure), runtime, keeper, open, log) == failed
            && HostMeans(statuses, Rooted(other, Panics(payload), onAnswer, onFailure), runtime, keeper, open, log) == HostRun(Panicked(payload), later))
    ensures HostMeans(statuses, Calls(Returns(status), onAnswer, onFailure), runtime, keeper, open, log)
         == HostMeans(statuses, if status == statuses(runtime).answered then onAnswer else onFailure, runtime, keeper, open, log)
    ensures HostMeans(statuses, Calls(Unwinds(payload), onAnswer, onFailure), runtime, keeper, open, log) == HostRun(Panicked(payload), log)
  {
    var later := log.(next := log.next + 1);
    forall r: nat, o: seq<nat>
      ensures HostMeans(statuses, Answers, r, log.next, o, later) == HostRun(Answered, later)
      ensures HostMeans(statuses, Fails(error), r, log.next, o, later) == HostRun(Failed(error), later)
      ensures HostMeans(statuses, Panics(payload), r, log.next, o, later) == HostRun(Panicked(payload), later)
    {
    }
    assert NativeMeans(statuses, Returns(status), runtime, keeper, open, log) == NativeRun([], Status(status), log);
    assert NativeMeans(statuses, Unwinds(payload), runtime, keeper, open, log) == NativeRun([], Unwound(payload), log);
  }

  /** A root run of a library does not nest in one of its own: asked for inside one, it goes on by the way it
      fails, with nothing of it done and no run begun, and after the one is over another may be opened. */
  lemma RootsDoNotNest(statuses: nat -> Statuses, runtime: nat, keeper: nat, open: seq<nat>, log: Log, other: nat,
                       inner: Host, again: Host, refused: Host, onAnswer: Host, onFailure: Host)
    requires other !in open
    ensures HostMeans(statuses, Rooted(other, Rooted(other, inner, again, refused), onAnswer, onFailure), runtime, keeper, open, log)
         == HostMeans(statuses, Rooted(other, refused, onAnswer, onFailure), runtime, keeper, open, log)
    ensures HostMeans(statuses, Rooted(other, Answers, Rooted(other, inner, onAnswer, onFailure), refused), runtime, keeper, open, log)
         == HostMeans(statuses, Rooted(other, inner, onAnswer, onFailure), runtime, keeper, open, log.(next := log.next + 1))
  {
    var outer, within := open + [other], log.(next := log.next + 1);
    assert other in outer;
    assert HostMeans(statuses, Rooted(other, inner, again, refused), other, log.next, outer, within)
        == HostMeans(statuses, refused, other, log.next, outer, within);
    assert HostMeans(statuses, Answers, other, log.next, outer, within) == HostRun(Answered, within);
  }

  /** What was made after `before`: in the run itself, or in one opened since. */
  predicate KeptBy(before: Log, after: Log, keeper: nat) {
    && before.next <= after.next && before.made <= after.made
    && forall i :: |before.made| <= i < |after.made| ==>
         after.made[i].0 == keeper || before.next <= after.made[i].0 < after.next
  }

  lemma KeptByThen(a: Log, b: Log, c: Log, keeper: nat)
    requires KeptBy(a, b, keeper) && KeptBy(b, c, keeper)
    ensures KeptBy(a, c, keeper)
  {
    assert forall i :: 0 <= i < |b.made| ==> c.made[i] == b.made[i];
  }

  /** What is made inside a run opened meanwhile is kept by it, or by one opened inside it. */
  lemma KeptByInner(a: Log, b: Log, keeper: nat)
    requires KeptBy(a.(next := a.next + 1), b, a.next)
    ensures KeptBy(a, b, keeper)
  {
  }

  /** Every item `h` adds to the log is under `keeper` or under a number the log had not reached when `h`
      began, at any depth of calls and callbacks: no other run open then keeps any of it. */
  lemma {:induction false} MadeIsKept(statuses: nat -> Statuses, h: Host, runtime: nat, keeper: nat, open: seq<nat>, log: Log)
    ensures KeptBy(log, HostMeans(statuses, h, runtime, keeper, open, log).log, keeper)
    decreases h
  {
    match h
    case Answers =>
    case Fails(_) =>
    case Panics(_) =>
    case Makes(item, next) =>
      var one := log.(made := log.made + [(keeper, item)]);
      MadeIsKept(statuses, next, runtime, keeper, open, one);
      KeptByThen(log, one, HostMeans(statuses, next, runtime, keeper, open, one).log, keeper);
    case Calls(native, onAnswer, onFailure) =>
      CallMakesKept(statuses, native, runtime, keeper, open, log);
      var call := CallMeans(statuses, native, runtime, keeper, open, log);
      if !call.end.Raising? {
        var rest := if call.end.Done? then onAnswer else onFailure;
        MadeIsKept(statuses, rest, runtime, keeper, open, call.log);
        KeptByThen(log, call.log, HostMeans(statuses, rest, runtime, keeper, open, call.log).log, keeper);
      }
    case Scoped(inner, onAnswer, onFailure) =>
      MadeInside(statuses, h, inner, runtime, keeper, open, log);
      var run := HostMeans(statuses, inner, runtime, log.next, open, log.(next := log.next + 1));
      if !run.end.Panicked? {
        var rest := if run.end.Answered? then onAnswer else onFailure;
        MadeIsKept(statuses, rest, runtime, keeper, open, run.log);
        KeptByThen(log, run.log, HostMeans(statuses, rest, runtime, keeper, open, run.log).log, keeper);
      }
    case Rooted(other, inner, onAnswer, onFailure) =>
      if other in open {
        MadeIsKept(statuses, onFailure, runtime, keeper, open, log);
      } else {
        MadeInside(statuses, h, inner, other, keeper, open + [other], log);
        var run := HostMeans(statuses, inner, other, log.next, open + [other], log.(next := log.next + 1));
        if !run.end.Panicked? {
          var rest := if run.end.Answered? then onAnswer else onFailure;
          MadeIsKept(statuses, rest, runtime, keeper, open, run.log);
          KeptByThen(log, run.log, HostMeans(statuses, rest, runtime, keeper, open, run.log).log, keeper);
        }
      }
  }

  lemma {:induction false} MadeInside(statuses: nat -> Statuses, parent: Host, inner: Host, runtime: nat, keeper: nat,
                                      open: seq<nat>, log: Log)
    requires inner < parent
    ensures KeptBy(log, HostMeans(statuses, inner, runtime, log.next, open, log.(next := log.next + 1)).log, keeper)
    decreases parent, 0
  {
    MadeIsKept(statuses, inner, runtime, log.next, open, log.(next := log.next + 1));
    KeptByInner(log, HostMeans(statuses, inner, runtime, log.next, open, log.(next := log.next + 1)).log, keeper);
  }

  lemma {:induction false} CallMakesKept(statuses: nat -> Statuses, n: Native, runtime: nat, keeper: nat, open: seq<nat>, log: Log)
    ensures KeptBy(log, NativeMeans(statuses, n, runtime, keeper, open, log).log, keeper)
    decreases n
  {
    match n
    case Returns(_) =>
    case Unwinds(_) =>
    case CallsBack(through, host, onAnswered, onFailed) =>
      if through != runtime {
        CallMakesKept(statuses, onFailed, runtime, keeper, open, log);
      } else {
        MadeIsKept(statuses, host, runtime, keeper, open, log);
        var run := HostMeans(statuses, host, runtime, keeper, open, log);
        var rest := if run.end.Answered? then onAnswered else onFailed;
        CallMakesKept(statuses, rest, runtime, keeper, open, run.log);
        KeptByThen(log, run.log, NativeMeans(statuses, rest, runtime, keeper, open, run.log).log, keeper);
      }
  }

  // ----- the thread -----

  /** A call open: into which library, made in which run, and what a callback left for it. */
  datatype Frame = Frame(runtime: nat, keeper: nat, caught: Option<Caught>)

  datatype OpenScope = OpenScope(runtime: nat, token: nat)

  function KeptFirst(before: Option<Caught>, later: Option<Caught>): Option<Caught> {
    if before.Some? then before else later
  }

  function LeftOn(frames: seq<Frame>, caught: Option<Caught>): (r: seq<Frame>)
    requires frames != []
  {
    var last := |frames| - 1;
    frames[..last] + [frames[last].(caught := KeptFirst(frames[last].caught, caught))]
  }

  /** `at` is the place of the last scope of a library's. */
  predicate IsLastScope(scopes: seq<OpenScope>, runtime: nat, at: nat) {
    at < |scopes| && scopes[at].runtime == runtime && forall i :: at < i < |scopes| ==> scopes[i].runtime != runtime
  }

  predicate IsLastRoot(open: seq<nat>, runtime: nat, at: nat) {
    at < |open| && open[at] == runtime && forall i :: at < i < |open| ==> open[i] != runtime
  }

  function LastScope(scopes: seq<OpenScope>, runtime: nat): (r: Option<nat>)
    ensures r.Some? ==> IsLastScope(scopes, runtime, r.value)
    ensures r.None? ==> forall i :: 0 <= i < |scopes| ==> scopes[i].runtime != runtime
  {
    if scopes == [] then None
    else if scopes[|scopes| - 1].runtime == runtime then Some(|scopes| - 1)
    else LastScope(scopes[..|scopes| - 1], runtime)
  }

  function LastRoot(open: seq<nat>, runtime: nat): (r: Option<nat>)
    ensures r.Some? ==> IsLastRoot(open, runtime, r.value)
    ensures r.None? ==> runtime !in open
  {
    if open == [] then None
    else if open[|open| - 1] == runtime then Some(|open| - 1)
    else LastRoot(open[..|open| - 1], runtime)
  }

  class Thread {
    const statuses: nat -> Statuses
    /** One entry a root run, the last opened last. */
    var open: seq<nat>
    /** The calls open, the innermost last. */
    var calls: seq<Frame>
    /** Every library's open scopes in one sequence, the last opened last. */
    var scopes: seq<OpenScope>
    var next: nat
    var made: seq<(nat, int)>
    /** Whether a library ever refused to close a scope. */
    var refused: bool

    constructor (statuses: nat -> Statuses)
      ensures this.statuses == statuses && open == [] && calls == [] && scopes == [] && next == 0 && made == [] && !refused
    {
      this.statuses := statuses;
      open, calls, scopes, next, made, refused := [], [], [], 0, [], false;
    }

    ghost function Now(): Log
      reads this
    {
      Log(next, made)
    }

    /** Everything but what was made, and what a callback left on the innermost call. */
    twostate predicate Restored()
      reads this
    {
      open == old(open) && scopes == old(scopes) && refused == old(refused)
    }

    /** The library's last scope comes out from among the others where its token is the one handed, and
        nothing comes out where it is not or where the library has none. */
    method CloseScope(runtime: nat, token: nat)
      modifies this`scopes, this`refused
      ensures var at := LastScope(old(scopes), runtime);
        if at.Some? && old(scopes)[at.value].token == token then
          scopes == old(scopes)[..at.value] + old(scopes)[at.value + 1..] && refused == old(refused)
        else scopes == old(scopes) && refused
    {
      var at := LastScope(scopes, runtime);
      if at.None? || scopes[at.value].token != token {
        refused := true;
      } else {
        scopes := scopes[..at.value] + scopes[at.value + 1..];
      }
    }

    /** The library's last root run comes out from among the others', where it has one. */
    method LeaveRoot(runtime: nat)
      modifies this`open
      ensures var at := LastRoot(old(open), runtime);
        open == if at.Some? then old(open)[..at.value] + old(open)[at.value + 1..] else old(open)
    {
      var at := LastRoot(open, runtime);
      if at.Some? { open := open[..at.value] + open[at.value + 1..]; }
    }

    /** A call: what is on the stack below it is as it was, it is taken off however it came back, and
        it comes to the first failure its own callbacks left, or else to its status. */
    method Call(native: Native, runtime: nat, keeper: nat) returns (end: CallEnd)
      modifies this
      ensures Restored() && calls == old(calls)
      ensures CallRun(end, Now()) == CallMeans(statuses, native, runtime, keeper, open, old(Now()))
      decreases native, 2
    {
      calls := calls + [Frame(runtime, keeper, None)];
      var came := InLibrary(native);
      var caught := calls[|calls| - 1].caught;
      calls := calls[..|calls| - 1];
      match came
      case Unwound(payload) => end := Raising(payload);
      case Status(status) => end := Outcome(statuses(runtime), status, caught);
    }

    /** The library in the middle of the innermost call: what its callbacks leave, they leave there. */
    method InLibrary(native: Native) returns (end: NativeEnd)
      requires calls != []
      modifies this
      ensures Restored()
      ensures var top := old(calls)[|old(calls)| - 1];
              var run := NativeMeans(statuses, native, top.runtime, top.keeper, open, old(Now()));
              end == run.end && Now() == run.log && calls == LeftOn(old(calls), FirstFailure(run.own))
      decreases native, 1
    {
      match native
      case Returns(status) => end := Status(status);
      case Unwinds(payload) => end := Unwound(payload);
      case CallsBack(runtime, host, onAnswered, onFailed) =>
        var answered := CalledBack(runtime, host);
        if answered { end := InLibrary(onAnswered); } else { end := InLibrary(onFailed); }
    }

    /** A host implementation called back: run in the run the innermost call was made in, and whatever
        it left kept for that call unless an earlier one left something. */
    method CalledBack(runtime: nat, host: Host) returns (answered: bool)
      requires calls != []
      modifies this
      ensures Restored()
      ensures var top := old(calls)[|old(calls)| - 1];
              if top.runtime != runtime then !answered && Now() == old(Now()) && calls == old(calls)
              else
                var run := HostMeans(statuses, host, runtime, top.keeper, open, old(Now()));
                answered == run.end.Answered? && Now() == run.log && calls == LeftOn(old(calls), CaughtOf(run.end))
      decreases host, 1
    {
      var top := calls[|calls| - 1];
      if top.runtime != runtime { return false; }
      var end := Run(host, runtime, top.keeper);
      if end.Answered? { return true; }
      var last := |calls| - 1;
      if calls[last].caught.None? {
        calls := calls[..last] + [calls[last].(caught := CaughtOf(end))];
      }
      return false;
    }

    /** A run opened for `inner`, its scope closed again however it came back. */
    method Inside(inner: Host, runtime: nat) returns (end: HostEnd)
      modifies this
      ensures Restored() && calls == old(calls)
      ensures HostRun(end, Now()) == HostMeans(statuses, inner, runtime, old(next), open, old(Now()).(next := old(next) + 1))
      decreases inner, 1
    {
      var token := next;
      next := next + 1;
      scopes := scopes + [OpenScope(runtime, token)];
      end := Run(inner, runtime, token);
      CloseScope(runtime, token);
    }

    /** A host implementation, or whatever a run was opened for. */
    method Run(host: Host, runtime: nat, keeper: nat) returns (end: HostEnd)
      modifies this
      ensures Restored() && calls == old(calls)
      ensures HostRun(end, Now()) == HostMeans(statuses, host, runtime, keeper, open, old(Now()))
      decreases host, 0
    {
      match host
      case Answers => end := Answered;
      case Fails(error) => end := Failed(error);
      case Panics(payload) => end := Panicked(payload);
      case Makes(item, rest) =>
        made := made + [(keeper, item)];
        end := Run(rest, runtime, keeper);
      case Calls(native, onAnswer, onFailure) =>
        var came := Call(native, runtime, keeper);
        match came {
          case Done => end := Run(onAnswer, runtime, keeper);
          case Failing(_) => end := Run(onFailure, runtime, keeper);
          case Raising(payload) => end := Panicked(payload);
        }
      case Scoped(inner, onAnswer, onFailure) =>
        end := Inside(inner, runtime);
        match end {
          case Answered => end := Run(onAnswer, runtime, keeper);
          case Failed(_) => end := Run(onFailure, runtime, keeper);
          case Panicked(_) =>
        }
      case Rooted(other, inner, onAnswer, onFailure) =>
        if other in open {
          end := Run(onFailure, runtime, keeper);
          return;
        }
        open := open + [other];
        end := Inside(inner, other);
        LeaveRoot(other);
        match end {
          case Answered => end := Run(onAnswer, runtime, keeper);
          case Failed(_) => end := Run(onFailure, runtime, keeper);
          case Panicked(_) =>
        }
    }
  }
}
