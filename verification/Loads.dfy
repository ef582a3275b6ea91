/** Reference counts of loaded libraries as a transition system, each step atomic as under the lock, and
    a table that refines it (`HOLDING` in bindings/rust/runtime/src/native.rs, `holding` in
    bindings/go/runtime/native_unix.go). */
module Loads {

  /** Where a load is: opened and not yet known to be of this generation, counted as holding its
      library, let go of but not yet closed, or closed. */
  datatype Stage = Opened | Counted | LetGo | Closed

  datatype Load = Load(library: nat, at: Stage)

  /** The loads there were, how many hold each library, how many times the loader has each open, which
      libraries keep something beyond any scope, and those released and those unloaded, in order. */
  datatype Process = Process(loads: seq<Load>, holding: map<nat, nat>, handles: map<nat, nat>, keeping: set<nat>,
                             released: seq<nat>, unloaded: seq<nat>)

  const START: Process := Process([], map[], map[], {}, [], [])

  function Count(counts: map<nat, nat>, library: nat): nat {
    if library in counts then counts[library] else 0
  }

  datatype Step = Open(library: nat) | Hold(load: nat) | Refuse(load: nat) | LetItGo(load: nat) | Close(load: nat)

  /** The loader closing a handle, which unloads the library where it was the last. */
  function Shut(p: Process, load: nat): Process
    requires load < |p.loads|
  {
    var l := p.loads[load].library;
    var left := Count(p.handles, l) - 1;
    p.(loads := p.loads[load := Load(l, Closed)],
       handles := p.handles[l := if left < 0 then 0 else left],
       unloaded := if left == 0 then p.unloaded + [l] else p.unloaded)
  }

  /** One action; a step a load is not at changes nothing. */
  function Next(p: Process, step: Step): Process {
    match step
    case Open(l) =>
      p.(loads := p.loads + [Load(l, Opened)], handles := p.handles[l := Count(p.handles, l) + 1])
    case Hold(i) =>
      if i >= |p.loads| || p.loads[i].at != Opened then p
      else
        var l := p.loads[i].library;
        p.(loads := p.loads[i := Load(l, Counted)], holding := p.holding[l := Count(p.holding, l) + 1],
           keeping := p.keeping + {l})
    case Refuse(i) => if i >= |p.loads| || p.loads[i].at != Opened then p else Shut(p, i)
    case LetItGo(i) =>
      if i >= |p.loads| || p.loads[i].at != Counted || p.loads[i].library !in p.holding then p
      else
        var l := p.loads[i].library;
        var gone := p.(loads := p.loads[i := Load(l, LetGo)]);
        if p.holding[l] <= 1 then
          gone.(holding := p.holding - {l}, released := p.released + [l], keeping := p.keeping - {l})
        else gone.(holding := p.holding[l := p.holding[l] - 1])
    case Close(i) => if i >= |p.loads| || p.loads[i].at != LetGo then p else Shut(p, i)
  }

  function After(steps: seq<Step>): Process {
    if steps == [] then START else Next(After(steps[..|steps| - 1]), steps[|steps| - 1])
  }

  // ----- what every step keeps -----

  /** How many of the loads hold a library, and how many have it open. */
  function Holders(loads: seq<Load>, library: nat): nat {
    if loads == [] then 0
    else
      var last := loads[|loads| - 1];
      Holders(loads[..|loads| - 1], library) + if last == Load(library, Counted) then 1 else 0
  }

  function Handles(loads: seq<Load>, library: nat): nat {
    if loads == [] then 0
    else
      var last := loads[|loads| - 1];
      Handles(loads[..|loads| - 1], library) + if last.library == library && last.at != Closed then 1 else 0
  }

  /** The count is of the loads counted and not let go of since; a library not held is not in the table;
      and what keeps something is exactly what is held. */
  predicate LibraryKept(p: Process, l: nat) {
    && Count(p.holding, l) == Holders(p.loads, l) && (l in p.holding <==> Holders(p.loads, l) > 0)
    && Count(p.handles, l) == Handles(p.loads, l) && (l in p.keeping <==> l in p.holding)
  }

  ghost predicate Kept(p: Process) {
    forall l: nat :: LibraryKept(p, l)
  }

  lemma {:induction false} HoldersBelow(loads: seq<Load>, l: nat)
    ensures Holders(loads, l) <= Handles(loads, l)
  {
    if loads != [] { HoldersBelow(loads[..|loads| - 1], l); }
  }

  lemma {:induction false} Replaced(loads: seq<Load>, i: nat, at: Stage, l: nat)
    requires i < |loads|
    ensures var after := loads[i := Load(loads[i].library, at)];
      && Holders(after, l) + (if loads[i] == Load(l, Counted) then 1 else 0)
         == Holders(loads, l) + (if loads[i].library == l && at == Counted then 1 else 0)
      && Handles(after, l) + (if loads[i].library == l && loads[i].at != Closed then 1 else 0)
         == Handles(loads, l) + (if loads[i].library == l && at != Closed then 1 else 0)
    decreases |loads|
  {
    var last := |loads| - 1;
    var after := loads[i := Load(loads[i].library, at)];
    if i < last {
      Replaced(loads[..last], i, at, l);
      assert after[..last] == loads[..last][i := Load(loads[i].library, at)];
    } else {
      assert after[..last] == loads[..last];
    }
  }

  lemma Added(loads: seq<Load>, load: Load, l: nat)
    requires load.at == Opened
    ensures Holders(loads + [load], l) == Holders(loads, l)
    ensures Handles(loads + [load], l) == Handles(loads, l) + if load.library == l then 1 else 0
  {
    assert (loads + [load])[..|loads|] == loads;
  }

  lemma NextLibrary(p: Process, step: Step, l: nat)
    requires LibraryKept(p, l)
    ensures LibraryKept(Next(p, step), l)
  {
    match step
    case Open(library) => Added(p.loads, Load(library, Opened), l);
    case Hold(i) => if i < |p.loads| { Replaced(p.loads, i, Counted, l); }
    case Refuse(i) => if i < |p.loads| { Replaced(p.loads, i, Closed, l); }
    case LetItGo(i) => if i < |p.loads| { Replaced(p.loads, i, LetGo, l); }
    case Close(i) => if i < |p.loads| { Replaced(p.loads, i, Closed, l); }
  }

  lemma NextKept(p: Process, step: Step)
    requires Kept(p)
    ensures Kept(Next(p, step))
  {
    forall l: nat ensures LibraryKept(Next(p, step), l) {
      assert LibraryKept(p, l);
      NextLibrary(p, step, l);
    }
  }

  lemma {:induction false} AlwaysKept(steps: seq<Step>)
    ensures Kept(After(steps))
  {
    if steps == [] {
      forall l: nat ensures LibraryKept(START, l) { }
    } else {
      AlwaysKept(steps[..|steps| - 1]);
      NextKept(After(steps[..|steps| - 1]), steps[|steps| - 1]);
    }
  }

  /** The only step that extends `released` takes `Holders` of the library from one to nought. */
  lemma ReleasedOnlyByTheLast(steps: seq<Step>, step: Step)
    ensures var p, q := After(steps), Next(After(steps), step);
      q.released != p.released ==>
        && step.LetItGo? && step.load < |p.loads| && q.released == p.released + [p.loads[step.load].library]
        && Holders(p.loads, p.loads[step.load].library) == 1 && Holders(q.loads, p.loads[step.load].library) == 0
  {
    var p, q := After(steps), Next(After(steps), step);
    AlwaysKept(steps);
    NextKept(p, step);
    if q.released != p.released {
      var l := p.loads[step.load].library;
      assert LibraryKept(p, l) && LibraryKept(q, l);
      Replaced(p.loads, step.load, LetGo, l);
    }
  }

  /** A library is unloaded keeping nothing: after it was last held it was released. */
  lemma UnloadedAfterRelease(steps: seq<Step>, step: Step)
    ensures var p, q := After(steps), Next(After(steps), step);
      q.unloaded != p.unloaded ==>
        && (step.Refuse? || step.Close?) && step.load < |p.loads| && q.unloaded == p.unloaded + [p.loads[step.load].library]
        && p.loads[step.load].library !in q.keeping && Handles(q.loads, p.loads[step.load].library) == 0
  {
    var p, q := After(steps), Next(After(steps), step);
    AlwaysKept(steps);
    NextKept(p, step);
    if q.unloaded != p.unloaded {
      var l := p.loads[step.load].library;
      assert LibraryKept(p, l) && LibraryKept(q, l);
      HoldersBelow(q.loads, l);
    }
  }

  /** A load that is counted finds its library in the table, so letting go of it never fails. */
  lemma CountedIsHeld(steps: seq<Step>, i: nat)
    ensures var p := After(steps);
      i < |p.loads| && p.loads[i].at == Counted ==> p.loads[i].library in p.holding && p.holding[p.loads[i].library] >= 1
  {
    var p := After(steps);
    AlwaysKept(steps);
    if i < |p.loads| && p.loads[i].at == Counted {
      assert LibraryKept(p, p.loads[i].library);
      HolderCounts(p.loads, i);
    }
  }

  lemma {:induction false} HolderCounts(loads: seq<Load>, i: nat)
    requires i < |loads| && loads[i].at == Counted
    ensures Holders(loads, loads[i].library) > 0
  {
    if i < |loads| - 1 { HolderCounts(loads[..|loads| - 1], i); }
  }

  /** The loads and the table of what holds each library, each method done with the lock held. What the
      loader has open, and what each library keeps, is the operating system's and the library's own. */
  class Table {
    var loads: seq<Load>
    var holding: map<nat, nat>
    ghost var handles: map<nat, nat>
    ghost var keeping: set<nat>
    ghost var released: seq<nat>
    ghost var unloaded: seq<nat>

    ghost function Now(): Process
      reads this
    {
      Process(loads, holding, handles, keeping, released, unloaded)
    }

    ghost predicate Valid()
      reads this
    {
      Kept(Now())
    }

    constructor ()
      ensures Valid() && Now() == START
    {
      loads, holding, handles, keeping, released, unloaded := [], map[], map[], {}, [], [];
      new;
      AlwaysKept([]);
    }

    /** A file opened, and not yet known to be of this generation. */
    method OpenFile(library: nat) returns (load: nat)
      requires Valid()
      modifies this
      ensures Valid() && Now() == Next(old(Now()), Open(library))
      ensures load == |old(loads)| && loads == old(loads) + [Load(library, Opened)] && holding == old(holding)
      ensures keeping == old(keeping) && released == old(released) && unloaded == old(unloaded)
    {
      NextKept(Now(), Open(library));
      load := |loads|;
      loads := loads + [Load(library, Opened)];
      handles := handles[library := Count(handles, library) + 1];
    }

    /** The loader's handle of a load closed, and the library unloaded where no other load has it open:
        what is unloaded is held by no load and keeps nothing. */
    method CloseHandle(load: nat)
      requires Valid() && load < |loads| && (loads[load].at.Opened? || loads[load].at.LetGo?)
      modifies this
      ensures Valid()
      ensures Now() == Next(old(Now()), if old(loads)[load].at.Opened? then Refuse(load) else Close(load))
      ensures var l := old(loads)[load].library;
        unloaded == if Handles(loads, l) == 0 then old(unloaded) + [l] else old(unloaded)
      ensures var l := old(loads)[load].library;
        loads == old(loads)[load := Load(l, Closed)] && (Handles(loads, l) == 0 ==> l !in keeping && l !in holding)
      ensures holding == old(holding) && keeping == old(keeping) && released == old(released)
    {
      ghost var before, step := Now(), if loads[load].at.Opened? then Refuse(load) else Close(load);
      var library := loads[load].library;
      NextKept(before, step);
      assert LibraryKept(before, library) && LibraryKept(Next(before, step), library);
      Replaced(loads, load, Closed, library);
      loads := loads[load := Load(library, Closed)];
      HoldersBelow(loads, library);
      ghost var left := Count(handles, library) - 1;
      handles := handles[library := if left < 0 then 0 else left];
      unloaded := if left == 0 then unloaded + [library] else unloaded;
    }

    /** A load known to be of this generation is counted. */
    method HoldLibrary(load: nat)
      requires Valid() && load < |loads| && loads[load].at.Opened?
      modifies this
      ensures Valid() && Now() == Next(old(Now()), Hold(load))
      ensures var l := old(loads)[load].library;
        && loads == old(loads)[load := Load(l, Counted)]
        && l in holding && holding[l] == Holders(loads, l) == Holders(old(loads), l) + 1 && l in keeping
        && holding - {l} == old(holding) - {l} && released == old(released) && unloaded == old(unloaded)
    {
      ghost var before := Now();
      var library := loads[load].library;
      NextKept(before, Hold(load));
      assert LibraryKept(before, library) && LibraryKept(Next(before, Hold(load)), library);
      if library !in holding { holding := holding[library := 0]; }
      holding := holding[library := holding[library] + 1];
      assert holding == before.holding[library := Count(before.holding, library) + 1];
      loads := loads[load := Load(library, Counted)];
      keeping := keeping + {library};
      Replaced(before.loads, load, Counted, library);
      assert Now() == Next(before, Hold(load));
    }

    /** One count down: `release` if and only if that brings `Holders` to nought, and the entry goes then. */
    method LetGoOf(load: nat) returns (release: bool)
      requires Valid() && load < |loads| && loads[load].at.Counted?
      modifies this
      ensures Valid() && Now() == Next(old(Now()), LetItGo(load))
      ensures var l := old(loads)[load].library;
        && loads == old(loads)[load := Load(l, LetGo)] && Holders(loads, l) == Holders(old(loads), l) - 1
        && (release <==> Holders(loads, l) == 0) && (release <==> l !in holding) && (release <==> l !in keeping)
        && released == (if release then old(released) + [l] else old(released))
        && holding - {l} == old(holding) - {l} && unloaded == old(unloaded)
    {
      ghost var before := Now();
      var library := loads[load].library;
      NextKept(before, LetItGo(load));
      assert LibraryKept(before, library) && LibraryKept(Next(before, LetItGo(load)), library);
      HolderCounts(loads, load);
      holding := holding[library := holding[library] - 1];
      release := holding[library] == 0;
      loads := loads[load := Load(library, LetGo)];
      if release {
        holding := holding - {library};
        released, keeping := released + [library], keeping - {library};
      }
      Replaced(before.loads, load, LetGo, library);
      assert release ==> holding == before.holding - {library};
    }
  }
}
