/** What the checks of a document refuse, said of values: a field of a sum, a test, the name of an arm and the
    routing of a stage each stand exactly where no value goes wrong by them. */
module Exactness {
  import opened Options
  import opened Transport
  import opened Declarations
  import opened Machine
  import opened Coherence
  import opened Typing
  import opened Inclusion

  /** Every value of the one is a value of the other. */
  ghost predicate Within(w: World, actual: Ty, expected: Ty) {
    forall v :: Lasting(w, v, actual) ==> Lasting(w, v, expected)
  }

  lemma FitsIsWithin(w: World, actual: Ty, expected: Ty)
    requires HasNoValue(actual) || Full(w, actual)
    requires AllNamed(w, expected)
    ensures Fits(w.declared, actual, expected) <==> Within(w, actual, expected)
  {
    FitsExactly(w, actual, expected);
  }

  // ----- values of cases -----

  ghost predicate LastingBuilt(w: World, v: Value) {
    v.Record? ==> forall k: nat :: WellBuilt(w, k, v)
  }

  lemma LastingOfCases(w: World, v: Value, ty: Ty)
    requires CasesOf(w.declared, ty).Some?
    ensures Lasting(w, v, ty) <==> CaseOf(v).Some? && CaseOf(v).value in CasesOf(w.declared, ty).value && LastingBuilt(w, v)
  {
    forall k: nat ensures Of(w, k, v, ty) <==> IsCase(w, k, v, CasesOf(w.declared, ty).value) { OfCases(w, k, v, ty); }
    if Lasting(w, v, ty) {
      assert Of(w, 0, v, ty);
      if v.Record? {
        forall k: nat ensures WellBuilt(w, k, v) { assert Of(w, k, v, ty); }
      }
    }
  }

  /** A case with a value is known and no sum, and its value is built of it. */
  lemma CaseIsLeaf(w: World, c: Case) returns (v: Value)
    requires HasCase(w, c)
    ensures Known(w.declared, c) && Reached(w.declared, c) == [c]
    ensures CaseOf(v) == Some(c) && LastingBuilt(w, v)
  {
    v :| LastingCase(w, v, c);
    assert IsCase(w, 0, v, [c]);
    if v.Record? {
      forall k: nat ensures WellBuilt(w, k, v) { assert IsCase(w, k, v, [c]); }
    }
  }

  // ----- a field of a sum -----

  /** The value has a field of that name, and it is of the type. */
  ghost predicate HasField(w: World, v: Value, name: string, ty: Ty) {
    FieldIn(w, v, name).Some? && Lasting(w, FieldIn(w, v, name).value, ty)
  }

  /** Every type a case holds has a value. */
  ghost predicate FieldsFull(w: World, c: Case) {
    c.Declared? && c.key in w.declared ==>
      forall i :: 0 <= i < |FieldsOf(w.declared[c.key])| ==> Full(w, FieldsOf(w.declared[c.key])[i].ty)
  }

  lemma FieldOfCase(w: World, v: Value, c: Case, name: string, ty: Ty)
    requires CaseOf(v) == Some(c) && LastingBuilt(w, v) && CaseField(w.declared, c, name, ty)
    ensures HasField(w, v, name, ty)
  {
    var fields := FieldsOf(w.declared[c.key]);
    var at := PositionOf(fields, name).value;
    assert WellBuilt(w, 0, v);
    forall k: nat ensures Of(w, k, v.fields[at], ty) {
      assert WellBuilt(w, k, v);
      FitsIsInclusion(w, k, v.fields[at], fields[at].ty, ty);
    }
  }

  /** A record with one field another value of its type. */
  lemma FieldReplaced(w: World, v: Value, at: nat, u: Value) returns (z: Value)
    requires v.Record? && v.declared in w.declared && at < |FieldsOf(w.declared[v.declared])| && LastingBuilt(w, v)
    requires Lasting(w, u, FieldsOf(w.declared[v.declared])[at].ty)
    ensures z.Record? && z.declared == v.declared && at < |z.fields| && z.fields[at] == u && LastingBuilt(w, z)
  {
    assert WellBuilt(w, 0, v);
    z := Record(v.declared, v.fields[at := u]);
    forall k: nat ensures WellBuilt(w, k, z) {
      assert WellBuilt(w, k, v) && Of(w, k, u, FieldsOf(w.declared[v.declared])[at].ty);
    }
  }

  /** Where every value of a case has the field, of the type, the case has it and its type fits. */
  lemma CaseFieldBack(w: World, c: Case, name: string, ty: Ty)
    requires HasCase(w, c) && FieldsFull(w, c) && AllNamed(w, ty)
    requires forall v :: CaseOf(v) == Some(c) && LastingBuilt(w, v) ==> HasField(w, v, name, ty)
    ensures CaseField(w.declared, c, name, ty)
  {
    var v := CaseIsLeaf(w, c);
    assert HasField(w, v, name, ty);
    var fields := FieldsOf(w.declared[c.key]);
    var at := PositionOf(fields, name).value;
    forall u | Lasting(w, u, fields[at].ty) ensures Lasting(w, u, ty) {
      var z := FieldReplaced(w, v, at, u);
      assert HasField(w, z, name, ty);
    }
    FitsIsWithin(w, fields[at].ty, ty);
  }

  /** A field is read of a sum exactly where every value of every case has it, of the type it is read as. */
  lemma FieldOfSumExactly(w: World, key: string, name: string, ty: Ty)
    requires key in w.declared && w.declared[key].Sum? && Full(w, Ref(Declared(key))) && AllNamed(w, ty)
    requires forall c :: c in LeavesOf(w.declared, [Declared(key)]) ==> FieldsFull(w, c)
    ensures FieldStands(w.declared, Ref(Declared(key)), name, ty)
       <==> forall v :: Lasting(w, v, Ref(Declared(key))) ==> HasField(w, v, name, ty)
  {
    var of, cases := Ref(Declared(key)), LeavesOf(w.declared, [Declared(key)]);
    forall v ensures Lasting(w, v, of) <==> CaseOf(v).Some? && CaseOf(v).value in cases && LastingBuilt(w, v) { LastingOfCases(w, v, of); }
    if FieldStands(w.declared, of, name, ty) {
      forall v | Lasting(w, v, of) ensures HasField(w, v, name, ty) { FieldOfCase(w, v, CaseOf(v).value, name, ty); }
    }
    if forall v :: Lasting(w, v, of) ==> HasField(w, v, name, ty) {
      forall c | c in cases ensures CaseField(w.declared, c, name, ty) { CaseFieldBack(w, c, name, ty); }
    }
  }

  // ----- tests and names -----

  lemma {:induction false} LeavesAreThemselves(w: World, cases: seq<Case>)
    requires forall c :: c in cases ==> Reached(w.declared, c) == [c]
    ensures forall c :: c in LeavesOf(w.declared, cases) <==> c in cases
  {
    forall c ensures c in LeavesOf(w.declared, cases) <==> c in cases {
      if c in cases {
        var i :| 0 <= i < |cases| && cases[i] == c;
        assert c in Reached(w.declared, cases[i]);
      }
    }
  }

  /** A test by cases may be written of a subject that says its case exactly where the cases are the
      subject's: where every value of them is a value of it. */
  lemma TestStandsExactly(w: World, subject: Ty, atoms: seq<Case>)
    requires AreLeaves(w.declared, atoms) && HasCases(w.declared, subject)
    requires Full(w, Union(atoms)) && AllNamed(w, subject)
    ensures TestStands(w.declared, subject, Which(atoms)) <==> Within(w, Union(atoms), subject)
  {
    FitsIsWithin(w, Union(atoms), subject);
  }

  /** The name of an arm of one such test may be given a type exactly where the type has every value the
      test lets by and no value the subject has not; of other tests, the subject's own. */
  lemma ArmBindsExactly(w: World, subject: Ty, selects: seq<Selects>, number: nat, readAs: Ty)
    requires selects != [] && (|selects| == 1 ==> !selects[0].Held?)
    requires Full(w, readAs) && AllNamed(w, subject) && (selects[0].Which? ==> Full(w, Union(selects[0].atoms)))
    ensures ArmBinds(w.declared, subject, selects, Selected(number, readAs)) <==>
      if |selects| == 1 && selects[0].Which? then Within(w, Union(selects[0].atoms), readAs) && Within(w, readAs, subject)
      else readAs == subject
  {
    FullIsNamed(w, readAs);
    if selects[0].Which? { FitsIsWithin(w, Union(selects[0].atoms), readAs); }
    FitsIsWithin(w, readAs, subject);
  }

  // ----- routing -----

  /** It may run before the stage and is none of the cases the stage accepts. */
  ghost predicate RunsPast(w: World, v: Value, running: Ty, accepted: seq<Case>) {
    Lasting(w, v, running) && !Lasting(w, v, Union(accepted))
  }

  ghost predicate LeavesBy(w: World, v: Value, leaving: seq<Case>) {
    CaseOf(v).Some? && CaseOf(v).value in leaving && LastingBuilt(w, v)
  }

  /** The cases that leave have values, and each is a leaf. */
  lemma LeavingIs(w: World, leaving: seq<Case>)
    requires forall c :: c in leaving ==> HasCase(w, c)
    ensures leaving != [] ==> Full(w, Union(leaving))
    ensures CasesOf(w.declared, Union(leaving)).Some?
    ensures forall c :: c in CasesOf(w.declared, Union(leaving)).value <==> c in leaving
  {
    forall c | c in leaving ensures Known(w.declared, c) && Reached(w.declared, c) == [c] { var _ := CaseIsLeaf(w, c); }
    LeavesAreThemselves(w, leaving);
    if leaving != [] { assert leaving[0] in LeavesOf(w.declared, leaving); }
  }

  lemma RunsPastIs(w: World, v: Value, running: Ty, accepted: seq<Case>)
    requires CasesOf(w.declared, running).Some? && CasesOf(w.declared, Union(accepted)).Some?
    ensures RunsPast(w, v, running, accepted)
       <==> LeavesBy(w, v, Leaving(CasesOf(w.declared, running).value, LeavesOf(w.declared, accepted)))
  {
    LastingOfCases(w, v, running);
    LastingOfCases(w, v, Union(accepted));
  }

  /** Whatever leaves fits exactly where each value of it is of the type. */
  lemma LeavingFits(w: World, leaving: seq<Case>, answers: Ty)
    requires AllNamed(w, answers) && forall c :: c in leaving ==> HasCase(w, c)
    ensures (leaving != [] ==> Fits(w.declared, Union(leaving), answers)) <==> forall v :: LeavesBy(w, v, leaving) ==> Lasting(w, v, answers)
  {
    hide Lasting, Full, AllNamed, Fits, HasCase;
    LeavingIs(w, leaving);
    if leaving != [] { FitsIsWithin(w, Union(leaving), answers); }
    forall v ensures Lasting(w, v, Union(leaving)) <==> LeavesBy(w, v, leaving) { LastingOfCases(w, v, Union(leaving)); }
  }

  /** A stage routed by cases stands exactly where the cases are ones of what runs and of what the stage takes,
      and whatever runs and is none of them is of what the composition answers. */
  lemma RoutingExactly(w: World, accepted: seq<Case>, running: Ty, taken: Ty, answers: Ty)
    requires AreLeaves(w.declared, accepted) && Full(w, Union(accepted))
    requires OfCasesOnly(running) && CasesFull(w, running) && AllNamed(w, taken) && AllNamed(w, answers)
    ensures RoutingStands(w.declared, OnCases(accepted), running, taken, answers) <==>
      && Within(w, Union(accepted), running) && Within(w, Union(accepted), taken)
      && forall v :: RunsPast(w, v, running, accepted) ==> Lasting(w, v, answers)
  {
    var leaving := Leaving(CasesOf(w.declared, running).value, LeavesOf(w.declared, accepted));
    FullIsNamed(w, Union(accepted));
    RunningIsNamed(w, running);
    FitsIsWithin(w, Union(accepted), running);
    FitsIsWithin(w, Union(accepted), taken);
    LeavingFits(w, leaving, answers);
    forall v ensures RunsPast(w, v, running, accepted) <==> LeavesBy(w, v, leaving) { RunsPastIs(w, v, running, accepted); }
    RoutingIs(w, accepted, running, taken, answers, leaving);
  }

  lemma RunningIsNamed(w: World, running: Ty)
    requires OfCasesOnly(running) && CasesFull(w, running)
    ensures AllNamed(w, running)
  {
  }

  lemma RoutingIs(w: World, accepted: seq<Case>, running: Ty, taken: Ty, answers: Ty, leaving: seq<Case>)
    requires AreLeaves(w.declared, accepted) && CasesOf(w.declared, running).Some?
    requires leaving == Leaving(CasesOf(w.declared, running).value, LeavesOf(w.declared, accepted))
    ensures RoutingStands(w.declared, OnCases(accepted), running, taken, answers) <==>
      && Fits(w.declared, Union(accepted), running) && Fits(w.declared, Union(accepted), taken)
      && (leaving != [] ==> Fits(w.declared, Union(leaving), answers))
  {
    hide Fits, Leaving, LeavesOf;
  }

  // ----- compositions and what they are handed -----

  /** A stage stands on what the one before it answers. */
  predicate StageAfter(w: World, stages: seq<Stage>, i: nat, answers: Ty)
    requires 0 < i < |stages|
  {
    stages[i - 1].behavior in w.targets && StageStands(w, stages[i], w.targets[stages[i - 1].behavior].answers, answers)
  }

  /** The answers of the last stage fit the type. */
  predicate LastFits(w: World, stages: seq<Stage>, answers: Ty)
    requires stages != []
  {
    var last := stages[|stages| - 1].behavior;
    last in w.targets && Fits(w.declared, w.targets[last].answers, answers)
  }

  /** A composition stands exactly where its first stage takes what it takes with nothing routed, each further
      stage stands on the answers of the one before, and those of the last fit its own. */
  lemma ComposesByStages(w: World, target: Target, stages: seq<Stage>)
    ensures Composes(w, target, stages) <==>
      && stages != [] && stages[0].routing.Always? && stages[0].behavior in w.targets
      && w.targets[stages[0].behavior].takes == target.takes
      && (forall i :: 0 < i < |stages| ==> StageAfter(w, stages, i, target.answers))
      && LastFits(w, stages, target.answers)
  {
    if stages != [] && stages[0].behavior in w.targets { ComposesFromEach(w, stages, 1, target.answers); }
    hide Fits, StageAfter, LastFits, ComposesFrom;
  }

  lemma {:induction false} ComposesFromEach(w: World, stages: seq<Stage>, at: nat, answers: Ty)
    requires 0 < at <= |stages| && stages[at - 1].behavior in w.targets
    ensures ComposesFrom(w, stages[at..], w.targets[stages[at - 1].behavior].answers, answers) <==>
      (forall i :: at <= i < |stages| ==> StageAfter(w, stages, i, answers)) && LastFits(w, stages, answers)
    decreases |stages| - at
  {
    hide Fits, RoutingStands;
    if at < |stages| {
      assert stages[at..][0] == stages[at] && stages[at..][1..] == stages[at + 1..];
      assert StageAfter(w, stages, at, answers) ==> stages[at].behavior in w.targets;
      if stages[at].behavior in w.targets {
        ComposesFromEach(w, stages, at + 1, answers);
        hide StageAfter, LastFits;
      }
    }
  }

  /** A stage can be reached with what the composition is handed: its own capability is there, or one for each
      behavior it requires. */
  predicate Reachable(w: World, requirements: seq<string>, capabilities: seq<Capability>, behavior: string)
    requires behavior in w.targets
  {
    if w.targets[behavior].kind.Injected? then PlaceOf(requirements, behavior).Some?
    else Chosen(requirements, capabilities, w.targets[behavior].requirements).Some?
  }

  /** What the stages require is held to be handed exactly where each can be reached, whatever the capabilities
      handed for the requirements. */
  lemma HandedExactly(w: World, requirements: seq<string>, capabilities: seq<Capability>, stages: seq<Stage>)
    requires |capabilities| == |requirements|
    ensures StagesHanded(w, requirements, stages) <==>
      forall i :: 0 <= i < |stages| && stages[i].behavior in w.targets ==> Reachable(w, requirements, capabilities, stages[i].behavior)
  {
    forall i | 0 <= i < |stages| && stages[i].behavior in w.targets
      ensures Reachable(w, requirements, capabilities, stages[i].behavior) <==>
        var reached := w.targets[stages[i].behavior];
        if reached.kind.Injected? then stages[i].behavior in requirements else forall r :: r in reached.requirements ==> r in requirements
    {
    }
  }

  /** A behavior nothing is handed for is reached exactly where that is no call through a missing capability. */
  lemma ReachedExactly(p: Policy, w: World, required: seq<string>, declared: string, arguments: seq<Value>)
    requires declared in w.targets && !w.targets[declared].kind.Elsewhere? && declared !in required
    ensures ReachedAsConstructed(w, required, declared) <==> RunBehavior(p, w, 0, declared, [], arguments) != Stuck(Missing)
  {
  }
}
