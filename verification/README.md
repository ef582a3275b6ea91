# What the compiler and its bindings keep

A model, in Dafny, of the parts of souther-native-compiler that tests on examples cannot settle, and
proofs about it. `dafny verify dfyconfig.toml` checks all of it.

Five parts:

1. **The checker and the closures.** `Transport` is what crosses from the checker, `Machine` what
   running it comes to, with a number of steps to spend so that bodies that never end are covered too.
   `Coherence` says what an accepted document is; `Checking` is the walk that decides it, over one map
   of bindings changed in place and a list of relations owed, and is proved to decide exactly that.
   `Growing` is the pass over the names of a list being grown, as it carries its set along, and `Naming`
   when those are the names in force.
   `Typing` says what a value of a type is and `Soundness` that an accepted document goes right:
   every value is of the type the document says, every stage of a composition is handed what it takes,
   and no call reaches a capability nothing was handed for. `Inclusion` and `Exactness` say the other
   half, that what a document is refused for some value would go wrong by, `Walks` what a walk answers,
   and `Laws` and `Copies` what the forms of a body are to one another. `Closures` says what is free by the usual
   definition and what a block is planned to carry, `ReachOrder` and `SiteOrder` the order of both by two
   tables over a node's children, `Planner` is the walk that plans it in place, and
   `Conversion` shows that closures carrying only their plans mean what closures carrying everything
   do. `Lowered` puts the two together.
2. **Calls, runs and loads.** `CallFrames` is the Rust runtime's stack of calls against the meaning of
   the tree of calls it carries out, `GoCalls` the same calls kept run by run as Go keeps them,
   `GoRuns` handles over every interleaving of goroutines, `Fibers` PHP's sessions over every
   interleaving of fibers, `Loads` the count of loads over every interleaving of loads and drops, and
   `Capabilities` a verdict settled once against a walk made at each call.
3. **Spelling.** `HostShapes` and `HostSymbols`: how shapes and symbols are spelt, and a reader that
   recovers each from the left.
4. **Arithmetic.** `Decimals`, `Calendar` and `InstantText`.
5. **Paths.** `JsonPointers`.

How to read the main results:

- A value of a type is said with a number of steps (`Typing.Of`): a function is of its type where,
  handed values of what it takes with fewer steps, running it goes right. Everything is proved for
  every number of steps, so nothing is bounded by it.
- What the document does not hold (a kernel, another build's behavior, a host's implementation, how
  a clause comes out, where a map puts a key) is a parameter of `World`. `Soundness.Stated` says each
  answers what it is declared to and that a clause that breaks is one there is, and
  `Conversion.Respects` that none looks inside a closure.
- Where code runs, several threads or fibers are a list of actions, each by one of them; a result over
  every interleaving is a result over every such list.
- Three claims turned out false of the code; each has its input and its condition here. In Go a callback is answered to the innermost run of the library it goes through, so one through a
  library called further out, made in the middle of a call into another library, leaves its failure on
  a call that is not the one it was called back from (`GoCalls.MisplacedFailure`). `GoCalls.GuardIsExact`
  is exactly when one callback cannot, and `GoCalls.ProperExactly` exactly which trees of calls mean the
  same kept run by run: the condition is read off the tree and the runs open before anything is run, and
  every tree that fails it has one of its shape that is seen to go wrong. The input takes the exported
  `Call` and `Host` to make: generated bindings hand a library only capabilities its own runtime made and
  values of its own (`Capability.Requirements` and `of` in bindings/go/runtime/capability.go:63-90,
  `Ref.In` in bindings/go/runtime/run.go:269-281), so an implementation of one library's is never there
  for another to call back.
- The second is of maps. The checker never asks, where a walk builds a collection, that the accumulator its
  step takes is of what the walk answers. For lists that is safe where no name of the list is read but
  where it is grown. A map's step may read the map it is handed, and `MapWalks.AcceptedAndStuck` gives, for
  each way a node tells a type, accepted documents that read a value of one type as another's in their
  second round. Soundness is of documents whose map walks answer what fits what their steps take.
- The third is of the pass that keeps a list being grown apart (`confined` in
  native/crates/compiler/src/growing.rs). It puts a number into its set where a `let` names the list and
  takes none out when the `let` closes, while a number out of force may be bound again. So a step can name
  its list 4 on one way and bind 4 to a list of its own on the other, and answer by it:
  `GrownAgain.AcceptedAndStuck` is such a document, accepted and handed what it takes. What it goes on
  growing is a list of another layout; where it grows instead of answering, the lowering's own assertion
  fails. `Growing.KeepsNames` is the condition, which walking the step decides: no let and no arm on the way
  to an answer takes a number that names the list for anything else. `Naming.StepsKeptExactly` is that it is
  exact, read as the pass reads, by numbers: a step that does not keep its names has one, the same but for
  the numbers it answers by, that is let by and answers by no name. `Kept` is soundness under it, and
  `Coherence.StepsHold` the weaker condition the theorems in `Soundness` take, that each answer a step does
  give is of a name in force.
- `Typing.Of` says when a value is of a type for as long as so many steps last; `Inclusion.Lasting` is that
  it is for however many. A function is told from another by running it, so where two types of functions
  do not fit, what shows it is a function that tests what it is handed (`Inclusion.Testing`).
- A list being grown is a value of its own in `Machine` (`GrowingOf`), of no type, until the walk hands it
  over.

## Model

| member | source | states |
|---|---|---|
| `Declarations.LeavesOf` | native/crates/compiler/src/lib.rs:2031-2049 | A case is among the leaves exactly where one of the members reaches it, a sum giving way to its cases one step down. |
| `Declarations.PositionOf` | native/crates/compiler/src/transport.rs:569-571 | Where the first field of a name stands, and none exactly where no field has the name. |
| `Declarations.DepartureFor` | native/crates/compiler/src/lib.rs:4162-4197 | A clause goes to the departure written for it, a clause with no name to the one written for those, and any clause to a single one written for any; where the departures answer the clauses, each takes one and nothing past the clauses takes any. |
| `Declarations.DepartureIsTheOne` | native/crates/compiler/src/lib.rs:4162-4197 | No other departure than the one gone to is written for the clause that broke. |
| `Typing.FitsIsInclusion` | native/crates/compiler/src/lib.rs:2065-2110 | `fits` is inclusion of values: every value of the one type is a value of the other, for every pair of types `fits` accepts, through optionals, lists, sets, maps and tuples, and through functions with what they take turned round. |
| `Inclusion.FitsExactly` | native/crates/compiler/src/lib.rs:2065-2110 | And it is refused only where a value shows why: where every type held in the one has a value and the names of the other are known, a type fits another if and only if every value of it, for however many steps, is a value of the other; through sums, unions, optionals, lists, sets, maps and tuples, and through functions taking what a body can take apart. |
| `Inclusion.ToldApart` | native/crates/compiler/src/lib.rs:2087-2098 | Where types of cases, optionals, lists and functions do not fit, there is a value of the one and a function that runs on every value of the other and gets stuck on that value, whichever way round the walk over the two was begun: so what a function takes is refused only where some function does go wrong by it. |
| `Inclusion.FitsThrough` | native/crates/compiler/src/lib.rs:2065-2110 | Over every type, values or none and names known or not, a type fits itself and what fits through another fits. |
| `Exactness.FieldOfSumExactly` | native/crates/compiler/src/coherent.rs:1365-1420 | A field is read off a sum if and only if every value of every case has it, of the type it is read as. |
| `Exactness.TestStandsExactly` | native/crates/compiler/src/coherent.rs:1885-1920 | A test by cases of a subject that says its case stands if and only if every value of the cases is one of the subject's. |
| `Exactness.ArmBindsExactly` | native/crates/compiler/src/coherent.rs:1938-1987 | An arm's name is given a type if and only if the type has every value the test lets by and none the subject has not, and with more tests than one only the subject's own. |
| `Exactness.RoutingExactly` | native/crates/compiler/src/coherent.rs:2520-2605 | A stage is routed by cases if and only if every value of the cases is one of what runs and of what the stage takes, and every value that runs and is none of them is one of what the composition answers. |
| `Exactness.ComposesByStages` | native/crates/compiler/src/coherent.rs:2498-2616 | A composition stands if and only if its first stage takes what it takes with nothing routed, each further stage stands on what the one before answers, and what the last answers is what it answers. |
| `Exactness.HandedExactly` | native/crates/compiler/src/coherent.rs:2380-2420 | What stages require is held to be handed if and only if each finds its own capability, or one for each behavior it requires, among those the composition is handed, whatever they are. |
| `Exactness.ReachedExactly` | native/crates/compiler/src/coherent.rs:617-648 | A behavior no capability is required for is called if and only if applying it with nothing handed is no call through a missing capability. |
| `Typing.OfCases` | native/crates/compiler/src/lib.rs:2143-2150 | A value of a type made of cases is tagged with one of the cases the type descends to. |
| `Soundness.Sound` | native/crates/compiler/src/coherent.rs:728-1001 | Type soundness: any node accepted where it stands, run in any frame giving each binding in force a value of its type, ends in a value of the node's stated type or without one, and never takes a step it cannot take; a match with no arm standing is the one trap left. Its condition on names is by the names in force (`Growing.Scoped`), and on maps that what a map's step answers fits what it takes; `Kept` says it by the pass. |
| `Soundness.SoundField` | native/crates/compiler/src/coherent.rs:1365-1420 | A field read off a record, or off whichever case of a sum a value is, is there and is of the type the read says. |
| `Soundness.SoundAttempt` | native/crates/compiler/src/coherent.rs:1304-1364 | An attempted construction ends in a value of its type whether it builds or departs, with what is built bound only where every clause held, and where a clause broke there is a departure to go to, because the checker held the departures to the clauses. |
| `Soundness.ArmStands` | native/crates/compiler/src/coherent.rs:1885-1987 | Every test of an accepted arm can be made of a value of the subject, and where one stands, what the arm names is there and is of what it is read as. |
| `Soundness.NeverEnteredIsNeverTaken` | native/crates/compiler/src/unrun.rs:66-75 | An arm that only tests an optional of what has no value for being present has no test that stands of any value of its subject. |
| `Soundness.NeverAppliedIsOfItsType` | native/crates/compiler/src/unrun.rs:36-64 | A function over what has no value is of its type with no code at all, since nothing can be handed to it. |
| `Soundness.SoundCall` | native/crates/compiler/src/coherent.rs:2037-2155 | A call reaching a behavior, a helper or a kernel is handed values of what that takes and comes to a value of the call's type. |
| `Soundness.SoundBehaviorCall` | native/crates/compiler/src/coherent.rs:617-648 | A behavior called from a body is reached through a capability the body was handed, or by its symbol with nothing to be handed, and never through one that is missing. |
| `Soundness.SoundBlock` | native/crates/compiler/src/coherent.rs:1556-1581 | A block is a function of its stated type: applied at any later time to values of what it takes, it comes to a value of what it answers. |
| `Soundness.SoundApply` | native/crates/compiler/src/coherent.rs:1604-1625 | An application of a function value to values of what it takes comes to a value of what it answers. |
| `Soundness.SoundWalk` | native/crates/compiler/src/coherent.rs:2221-2288 | A walk building a list comes to a list of what it answers, whatever the accumulator its step takes is said to be a list of; one building a map comes to a map of what it answers where that fits what its step takes first. |
| `Walks.WalkAddsInOrder` | native/crates/compiler/src/lib.rs:7590-7634 | A walk over any list, from any place and in any frame, whose step adds a list it computes each round answers the lists computed for the elements walked, one after another in the order of the elements and no others, each computed after those before it; and where it answers nothing it comes to what the first element with no list computed comes to. |
| `Walks.WalkAddsOneEach` | native/crates/compiler/src/lib.rs:5426-5450 | Where one value is added each round, element i of the answer is the value computed for element `from + i`, and there are as many as are walked. |
| `Walks.WalkOfItself` | native/crates/compiler/src/lib.rs:7507-7542 | Adding each element itself answers the elements walked in their order: the whole list from nought, the rest of it from a place inside, nothing from outside. |
| `Walks.WalkKeeps` | native/crates/compiler/src/lib.rs:5439-5451 | A walk that adds the elements of which a condition holds answers those and no others, in their order. |
| `Walks.AroundIsLet` | native/crates/compiler/src/lib.rs:7470-7480 | What is bound around a step is bound as a `let` around the walk binds it, the outermost first. |
| `Walks.PutIsUpdate` | native/crates/compiler/src/lib.rs:5455-5484 | A write is an update of the map the entries are: what an equal key held is replaced under the key there was, a new key is added, nothing else changes, and without room the run ends. |
| `Walks.WalkOfPairs` | native/crates/compiler/src/lib.rs:7507-7542 | A walk putting each pair of a list into a map answers the map of the pairs walked, the last value of each key and no key twice. |
| `Copies.CopyIsTheValue` | native/crates/compiler/src/lib.rs:5148-5612 | For every type, a node that takes a value apart by it (a truth told, an optional by its arms, a tuple by its members, a list by a walk) and puts it together again comes to that very value, at no cost, under any frame. |
| `Copies.CopyIsAccepted` | native/crates/compiler/src/coherent.rs:728-1001 | And every document may have it for a body, whatever the type: it is accepted and the pass over names lets it by. |
| `Laws.MatchOfPresent` | native/crates/compiler/src/lib.rs:6493-6525 | Something present told apart is the value let under the arm's name. |
| `Laws.MatchOfPresentStands` | native/crates/compiler/src/coherent.rs:1488-1508 | And it is written exactly where that `let` is and the other arm stands. |
| `Laws.FirstStands` | native/crates/compiler/src/lib.rs:6611-6669 | Of arms, the first that is entered at all and has a test standing is taken, under what it binds, whatever comes after it, and none exactly where every one is passed by. |
| `Laws.MemberOfTuple` | native/crates/compiler/src/lib.rs:5543-5560 | A member of a tuple written out is the value at its place, all of them worked out first, and is written exactly where each is of its member's type. |
| `Laws.ApplyOfBlock` | native/crates/compiler/src/lib.rs:5595-5610 | A block applied where it is written is its body under its arguments, worked out first and in order. |
| `Laws.ApplyOfBlockStands` | native/crates/compiler/src/coherent.rs:1556-1625 | And is written exactly where the arguments are what it takes and the body stands under them. |
| `Laws.FieldOfConstruct` | native/crates/compiler/src/lib.rs:5323-5353 | A field of a record just made is what was written for it, and is read wherever the record is written. |
| `Laws.AttemptIs` | native/crates/compiler/src/lib.rs:6526-6580 | An attempt whose clauses hold is the record let under its name; where one breaks it is a departure written for that clause or for any, under the names there were; and where the run is ended it is ended. |
| `Laws.AttemptStands` | native/crates/compiler/src/coherent.rs:1304-1364 | And it is written exactly where that `let` is, the declaration has clauses, and the departures answer them and stand. |
| `Laws.DeparturesExactly` | native/crates/compiler/src/lib.rs:4162-4197 | Departures answer clauses exactly where one is for any clause, or each is for a clause there is and each clause has one and only one. |
| `Laws.RowThenRow` | native/crates/compiler/src/lib.rs:5354-5360 | Nodes in a row are worked out from the left, each with what those before it left, and the first with no value is what the row comes to. |
| `Soundness.SoundMapStepped` | native/crates/compiler/src/lib.rs:7429-7475 | Each round of a map's step is handed what the round before answered, and over any elements the walk comes to a map of the keys and values it answers. |
| `MapWalks.IsAccepted` | native/crates/compiler/src/coherent.rs:2266-2288 | A document whose map's step takes a map of one type and answers a map of another is accepted, whatever the two are of those it is stated for, with kernels that keep to what they are settled to. |
| `MapWalks.AcceptedAndStuck` | native/crates/compiler/src/growing.rs:190-213 | Type soundness without the condition on maps is false, by every way a node tells a type (a truth, an optional, a list, a tuple, a union): the document takes a step it cannot take exactly where two elements or more are walked and the value answered is none that can be told so, and then what is answered does not fit what is taken. |
| `Growing.Confining.HoldOrdinary` | native/crates/compiler/src/growing.rs:140-228 | The pass over a node outside a step's answers, its set changed in place: it answers yes and is left with a set exactly as `Ordinary` says, names it met still in it. |
| `Growing.Confining.HoldStep` | native/crates/compiler/src/growing.rs:230-243 | A list's step is read with its own names alone and every name around it out of reach, and the sets are afterwards what they were, refused or not. |
| `Growing.Confining.HoldAnswering` | native/crates/compiler/src/growing.rs:245-306 | The pass over a node where a step answers, as `Answering` says. |
| `Naming.StepsKeptExactly` | native/crates/compiler/src/growing.rs:245-306 | The exact condition on a list's step, for every accepted one: no let and no arm on the way to an answer takes, for anything else, a number the pass has for a name of the list, if and only if every step that is it but for the numbers it answers by, each in force, and that the pass lets by, answers by numbers that name the list there. |
| `Naming.AnsweringIsScoped` | native/crates/compiler/src/lib.rs:4988-5013 | Where that condition holds, every answer and every growth the pass lets by is of a name in force for the list the step grows, as the lowering asserts of a growth when it comes to it. |
| `Naming.OrdinaryIsScoped` | native/crates/compiler/src/growing.rs:140-228 | And everywhere else nothing reads a name in force, for every kind of node and any names a set was left with. |
| `Naming.KeepingHolds` | native/crates/compiler/src/growing.rs:116-127 | So every accepted document whose steps keep their names and whose maps fit is one soundness is proved of. |
| `GrownAgain.PassesWhereAgain` | native/crates/compiler/src/growing.rs:253-264 | A step that answers by a list of its own is let by exactly where it binds that list to the number of an earlier, closed name. |
| `GrownAgain.AcceptedAndStuck` | native/crates/compiler/src/lib.rs:7540-7550 | The claim that the pass keeps a list being grown apart is false without the condition: one accepted document, handed what it takes, goes on with a list that is none being grown, or grows one, exactly where its argument takes the way that binds the number again and an element is walked; it does not keep its names, and under any other number it is refused. |
| `Kept.SoundOrdinary` | native/crates/compiler/src/coherent.rs:728-1001 | Soundness by the pass: any node it lets by with any set it may have come there with, in an accepted document whose steps keep their names and fit, takes no step it cannot take and answers a value of its type. |
| `Kept.SoundStepAnswer` | native/crates/compiler/src/growing.rs:245-306 | The same where a step answers: what it answers is the list being grown, of values of what the walk answers a list of. |
| `Kept.SoundRun` | native/crates/compiler/src/coherent.rs:617-648 | The same of a whole run of a behavior. |
| `Soundness.SoundAnswering` | native/crates/compiler/src/growing.rs:246-319 | Every answer of a step that is of a name in force is the list being grown, of values of what the walk answers a list of, at every point a step can answer. |
| `Soundness.SoundBehavior` | native/crates/compiler/src/coherent.rs:617-648 | Requirement soundness over whole call trees: a behavior started with a capability for each of its requirements and arguments of what it takes, through bodies, helpers, compositions, function values and capabilities at any depth, never reaches a missing capability or a value of the wrong shape, and answers a value of what its target answers. |
| `Soundness.StageIsHanded` | native/crates/compiler/src/coherent.rs:2520-2605 | What runs into a stage is a value of what the stage takes where it is applied, and a value of what the composition answers where it leaves. |
| `Soundness.ChosenStand` | native/crates/compiler/src/coherent.rs:2380-2420 | Out of what a composition was handed, each stage it builds is handed a capability that stands for each behavior the stage requires. |
| `Soundness.SoundComposition` | native/crates/compiler/src/coherent.rs:2498-2616 | For any number of stages and any routing accepted, a composition handed values of what it takes answers, early or last, a value of what it answers. |
| `Compositions.EveryStageIsHandedWhatItTakes` | native/crates/compiler/src/coherent.rs:2498-2616 | Over a whole run, every stage applied, in the order they are applied, is handed values of what its target takes, and the answer is of the composition's type. |
| `Compositions.TraceIsTheRun` | native/crates/compiler/src/lib.rs:4266-4420 | The stages a run applies, in order: the first on what the composition is handed, each further one on what the one before answered where that does not leave there, and the run comes to what the last of them comes to. |
| `Checking.Owed.Fit` | native/crates/compiler/src/coherent.rs:352-359 | A relation owed is added last, and all that is owed fits exactly where all before it did and it does. |
| `Checking.Owed.Settle` | native/crates/compiler/src/coherent.rs:361-375 | The second pass answers yes exactly where everything owed fits. |
| `Checking.SlotsNameTheChildren` | native/crates/compiler/src/coherent.rs:734-756 | Wherever a node's relations stand, its table of slots names each of its children once, in order: the assertion made before the table is read never fails. |
| `Checking.RelationsAndSlots` | native/crates/compiler/src/coherent.rs:728-1001 | A node is accepted exactly where its relations stand and each child is of the type of its slot, for every kind of node. |
| `Checking.BodyWalk.Under` | native/crates/compiler/src/coherent.rs:688-719 | A node read under further bindings: what is in force afterwards is exactly what it was, refused or not, a number already in force is refused, and the body stands as under those bindings. |
| `Checking.BodyWalk.Leave` | native/crates/compiler/src/coherent.rs:721-726 | Exactly the numbers entered are out of force again. |
| `Checking.BodyWalk.Node` | native/crates/compiler/src/coherent.rs:728-732 | The walk over a body restores what is in force, refuses only what does not stand, and where it does not refuse, the body stands exactly where everything it went on to owe fits. |
| `Checking.BodyWalk.HoldSlots` | native/crates/compiler/src/coherent.rs:734-756 | Every typed child is exactly of its slot's type, and answers no exactly where one is not or the table could not be made. |
| `Checking.BodyWalk.RelateTests` | native/crates/compiler/src/coherent.rs:1885-1920 | What is tested of a value stands exactly where each test is one the value can be asked, owing that its cases are the value's. |
| `Checking.BodyWalk.RelateArmBinding` | native/crates/compiler/src/coherent.rs:1938-1987 | What an arm names is read as what its tests leave, owing both that the cases tested are read as it and that it is read out of the subject. |
| `Checking.BodyWalk.FieldRelates` | native/crates/compiler/src/coherent.rs:1365-1420 | A field read off a sum is asked of every case of it, owing that what each lays out fits the read. |
| `Checking.BodyWalk.RelateMatch` | native/crates/compiler/src/coherent.rs:1488-1508 | A match stands exactly where its subject and each of its arms do, each arm read with its own name in force and no other's. |
| `Checking.BodyWalk.RelateBlock` | native/crates/compiler/src/coherent.rs:1556-1581 | A block stands exactly where it is of a function type of as many parameters and its body stands with each in force at what is taken. |
| `Checking.HoldComposition` | native/crates/compiler/src/coherent.rs:2498-2616 | The loop over the stages, updating what runs and owing each relation, accepts with everything owed fitting exactly the compositions whose every stage stands. |
| `Checking.HoldHanded` | native/crates/compiler/src/coherent.rs:2380-2420 | Answers yes exactly where every stage is handed what it requires. |
| `Checking.HoldRequirements` | native/crates/compiler/src/coherent.rs:2357-2373 | Answers yes exactly where what is required is targets, each once and none the definition itself. |
| `Checking.HoldDocument` | native/crates/compiler/src/coherent.rs:193-323 | The two passes over a whole document accept exactly the documents every definition, composition and helper of which stands, every body confined as well as walked, the pass over names being `Growing.Confining`; soundness asks of their steps `Coherence.StepsHold` besides. |
| `Closures.FreeReadsNameTheFree` | native/crates/compiler/src/closures.rs:220-437 | What is read free, in first-reached order over the code that runs, names exactly the free variables by their usual definition, for every kind of node. |
| `Closures.PlanCarriesTheFree` | native/crates/compiler/src/closures.rs:259-326 | A block's plan carries each of its free bindings once and no other, and what the body was handed exactly where code of it that runs calls a required behavior. |
| `ReachOrder.FreeReadsByChildren` | native/crates/compiler/src/closures.rs:220-437 | What is read free, and in which order, by two tables over the children of a node: those of each child that runs, from left to right, less what the node binds around it, for every kind of node. |
| `ReachOrder.ReachesByChildren` | native/crates/compiler/src/closures.rs:220-437 | What a body was handed is reached exactly where a required behavior is called by a node or in a child that runs. |
| `SiteOrder.SitesByChildren` | native/crates/compiler/src/closures.rs:259-326 | The sites of a body are those in each child that runs, from left to right, a block's own after those inside it. |
| `SiteOrder.BlocksByChildren` | native/crates/compiler/src/closures.rs:259-275 | What planning refuses for is a block not typed as a function anywhere, in code that runs or not. |
| `Closures.NamesGather` | native/crates/compiler/src/closures.rs:473-481 | Gathering reads keeps every binding reached, each once. |
| `Closures.GatherGathered` | native/crates/compiler/src/closures.rs:321-325 | Reading a nested block's captures as reached here is reading all its free reads here. |
| `Planner.Reached.Binding` | native/crates/compiler/src/closures.rs:473-481 | A read is appended exactly where it is not bound inside and not reached before, and nothing else changes. |
| `Planner.Planning.Walk` | native/crates/compiler/src/closures.rs:220-437 | The walk over one shared set and one accumulator computes the textbook answer: the names in force are exactly restored, exactly the free bindings of the code that runs are added in first-reached order with none twice, the environment is marked exactly where a required behavior is called there, and every block's plan is recorded after those inside it. |
| `Planner.Planning.Free` | native/crates/compiler/src/closures.rs:214-218 | What a node reaches outside a scope, from nothing reached. |
| `Planner.Planning.Planned` | native/crates/compiler/src/closures.rs:259-306 | A block's own reaches, under its parameters and nothing of the scope around it, are exactly its plan's captures. |
| `Planner.Planning.WalkBlock` | native/crates/compiler/src/closures.rs:259-326 | A block adds its captures to what is reached here and its site after those in it. |
| `Planner.Planning.WalkStep` | native/crates/compiler/src/closures.rs:439-470 | A walk's step is read where the walk stands, with what is bound around it and its parameters in force for as long as its body is read. |
| `Planner.Planning.WalkMatch` | native/crates/compiler/src/closures.rs:350-371 | An arm never entered adds nothing, and every other is read under its own name. |
| `Conversion.Converts` | native/crates/compiler/src/closures.rs:214-326 | Closure conversion preserves meaning: with frames that agree on what a node reaches, running it where each block keeps only its planned captures ends as running it where each keeps its whole lexical scope, with as many steps left and a value alike but for what closures carry and never read. |
| `Conversion.ConvertsBlock` | native/crates/compiler/src/closures.rs:259-326 | The closure a block is made into by its plan is alike the one made with the whole scope. |
| `Conversion.ConvertsFramed` | native/crates/compiler/src/closures.rs:439-470 | An inlined walk step means the same by plan as lexically, for any number of bindings around it and any list. |
| `Conversion.ConvertsBehavior` | native/crates/compiler/src/closures.rs:142-153 | The same over a whole run of a behavior, through calls, compositions and function values. |
| `Lowered.CapturesAreTyped` | native/crates/compiler/src/closures.rs:55-64 | In a body the checker accepts, each capture is planned at exactly the type its binder is in force at where the block stands. |
| `Lowered.LoweredIsSound` | native/crates/compiler/src/closures.rs:142-165 | A behavior of an accepted document, run with closures carrying only what was planned, takes no step it cannot take, reaches no missing capability and answers what the document run lexically answers, the very value where it is data. |
| `Lowered.AlikeDataIsSame` | native/crates/compiler/src/closures.rs:142-165 | Being alike is being the same for values with no closure in them, so what conversion preserves of data is the value. |
| `CallFrames.Thread.Call` | bindings/rust/runtime/src/run.rs:235-241 | A call leaves every frame below as it was, is off the stack however it came back, and comes to what the tree of calls means: the first failure its own callbacks left, or else its status. |
| `CallFrames.Thread.InLibrary` | bindings/rust/runtime/src/run.rs:483-531 | In the middle of a call, whatever its callbacks leave is on its own frame, the first of them only, and no other frame changes. |
| `CallFrames.Thread.CalledBack` | bindings/rust/runtime/src/run.rs:150-182 | A callback runs in the run its call was made in and leaves its failure on that call's frame unless one is there; through another library than the one called it runs nothing and touches nothing. |
| `CallFrames.Thread.Run` | bindings/rust/runtime/src/run.rs:121-133 | Whatever a host does, with calls, runs inside and root runs of other libraries nested in any way and any of them panicking, the stacks of calls, root runs and scopes are as they were, no close is ever refused, and what it comes to is what the tree means. |
| `CallFrames.Thread.CloseScope` | bindings/rust/runtime/src/run.rs:468-481 | The last scope of the library's, wherever it stands among other libraries', comes out where its token is the one handed, and otherwise nothing does and the close is refused. |
| `CallFrames.Thread.LeaveRoot` | bindings/rust/runtime/src/run.rs:440-453 | The last root run of the library's comes out from among the others, and nothing does where it has none. |
| `CallFrames.FirstFailure` | bindings/rust/runtime/src/run.rs:172-181 | None exactly where every callback answered, and otherwise what the first that did not left. |
| `CallFrames.CallComesToTheFirst` | bindings/rust/runtime/src/failure.rs:94-106 | A call some callback of its own did not answer comes to what the first such left, a panic raised and a failure answered as what crossed or as the host's, whatever the status. |
| `CallFrames.NameOf` | bindings/rust/runtime/src/failure.rs:111-117 | A status is named by the first entry numbered so, and has no name exactly where no entry is. |
| `CallFrames.CallComesToItsStatus` | bindings/rust/runtime/src/failure.rs:107-118 | A call all of whose own callbacks answered comes to its status, whatever failed in calls made meanwhile: done exactly for the status that says it answered, a protocol violation exactly for the two that say an implementation failed, unbound exactly for its own where it is none of those, and for every other status, and only for those, an abort with it under the name of the first entry numbered so, or none where no entry is. |
| `CallFrames.GoesOnAsItCameBack` | bindings/rust/runtime/src/run.rs:213-241 | A run inside or a root run of another library goes on past it where what was done in it answered, by the other way where it failed and not at all where it panicked, and so does a call by its status. |
| `CallFrames.RootsDoNotNest` | bindings/rust/runtime/src/run.rs:427-453 | A root run of a library asked for inside one of its own begins nothing and does nothing of it, and after the one is over another may be opened. |
| `CallFrames.MadeIsKept` | bindings/rust/runtime/src/run.rs:163-170 | Whatever is made in an implementation, at any depth, is kept by the run its call was made in or one opened meanwhile, and by no other run open at the time. |
| `GoCalls.ProperExactly` | bindings/go/runtime/run.go:306-370 | The exact condition, over whole trees: every tree with the same calls, runs and callbacks, whatever is made in it and however its leaves end, comes to what it means and leaves every run as it was, if and only if each callback a run can reach goes through the library called or one with no call going on in its innermost run. |
| `GoCalls.GoMeansCall` | bindings/go/runtime/run.go:306-322 | Kept run by run, a call of such a tree comes to the same meaning as on a stack of calls and leaves every run as it was. |
| `GoCalls.GoMeansNative` | bindings/go/runtime/run.go:335-370 | A callback answered to the innermost run of its library leaves its failure on the frame of the call it was called back from, the first only. |
| `GoCalls.GuardIsExact` | bindings/go/runtime/run.go:340-352 | The guard of one callback, exactly: every implementation whose own calls come to what they mean leaves every call but the one going on alone if and only if it is called back through the library of the call going on, or through one with no run, or no call, going on innermost, or something was left for that call already. |
| `GoCalls.MisplacedFailure` | bindings/go/runtime/run.go:335-370 | Without that condition the claim is false of Go: a tree in which a callback through a library called further out leaves its failure on the call further out, which by the meaning of the tree answered. |
| `GoRuns.NextKept` | bindings/go/runtime/run.go:145-190 | Every action of every thread keeps: the open scopes of each library on each thread are its runs' in order, runs nest, live is being in its function, and a child is the run opened from it. |
| `GoRuns.AlwaysKept` | bindings/go/runtime/run.go:73-94 | So after any actions of any threads in any order, and root runs are one to each runtime and thread. |
| `GoRuns.ReadStandsInAnOpenScope` | bindings/go/runtime/run.go:199-206 | A value that may be read is in a scope still open on the thread asking. |
| `GoRuns.ReadingIsRunning` | bindings/go/runtime/run.go:199-206 | And none is refused that might be: a run may be read from exactly where the thread is inside the function it was opened for, runs opened from there or not. |
| `GoRuns.MakingIsInnermost` | bindings/go/runtime/run.go:208-215 | And made in exactly where it is besides the last of its runtime's on the thread's stack. |
| `GoRuns.NextIsItsThreads` | bindings/go/runtime/run.go:145-190 | An action is one thread's: the runs another thread is in, the scopes it has open and what its runs hold stay as they are. |
| `GoRuns.MadeStandsInTheInnermost` | bindings/go/runtime/run.go:210-215 | Whatever is made through a run is in that run's scope, which is the innermost of its library's on the thread. |
| `GoRuns.HandedStandsInAnOpenScope` | bindings/go/runtime/run.go:269-281 | A value handed to a computation is in a scope open on the thread, and the computation's run is the innermost. |
| `GoRuns.CloseIsNeverRefused` | bindings/go/runtime/run.go:177-190 | A scope about to be closed is the innermost its thread has open, so the close the library promises is never refused. |
| `GoRuns.SafeAlways` | native/crates/abi/src/lib.rs:1706-1718 | All of these over every interleaving, with what was held in a run that is over released once each, the last held first. |
| `GoRuns.ReleasedAfterClosing` | bindings/go/runtime/run.go:125-134 | Nothing held in a run is released while its scope is open. |
| `GoRuns.Package.EnterRun` | bindings/go/runtime/run.go:73-83 | A root run is entered exactly where the runtime has no run on the thread, found by the loop over the root runs open, and is then the runtime's innermost there. |
| `GoRuns.Package.EnterInner` | bindings/go/runtime/run.go:162-168 | A run inside another is entered exactly where that one is running on this thread's stack and the last of its runtime's there, read off its `child` alone, and is then on top with that one its parent. |
| `GoRuns.Package.InnermostOf` | bindings/go/runtime/run.go:217-224 | From child to child the loop comes to the innermost run of the runtime's on the thread's stack. |
| `GoRuns.Package.Close` | bindings/go/runtime/run.go:177-190 | Closing a run's scope always succeeds and takes that scope and no other off the arena. |
| `GoRuns.Package.Release` | bindings/go/runtime/run.go:129-134 | The loop over what a run held releases all of it once, the last held first. |
| `GoRuns.Package.Leave` | bindings/go/runtime/run.go:85-94 | With a run left, the run it was opened from is the innermost of its library's again, and after a root run the runtime has none on the thread. |
| `GoRuns.Package.Handed` | bindings/go/runtime/run.go:263-281 | A value is given exactly where the thread is inside the run that made it and the run it is for is running, innermost of the same runtime on the stack, and then it stands in an open scope; and each refusal is for the first thing wrong: a run that is over or the goroutine, the value's run before the other's, then not the innermost, then another runtime. |
| `HostShapes.WordsInto` | native/crates/abi/src/lib.rs:2318-2334 | The words are added after what was there, an optional's presence first, a product's members in order, a list and a function as one. |
| `HostShapes.WordsAreScanned` | native/crates/abi/src/lib.rs:2318-2345 | The words of a shape are those of its spelling read once from the left with no tree: each `o` a presence right before the words of what it marks, `t` none of its own, `l` and `f` one and nothing for the shapes counted behind them, and a leaf its own. |
| `HostShapes.MarksAsWritten` | native/crates/abi/src/lib.rs:2346-2375 | Each mark is the letter and the count a library's symbols write it with, each part after its own `_`. |
| `HostShapes.SpeltInto` | native/crates/abi/src/lib.rs:2346-2375 | The spelling is added after what was there, each part after its mark. |
| `HostShapes.ShapeReadsBack` | native/crates/abi/src/lib.rs:2338-2375 | The spelling is a prefix code: for shapes of any depth and arity, a reader driven by the count in each mark recovers the shape and takes exactly its characters, whatever follows. |
| `HostShapes.SpelledApart` | native/crates/abi/src/lib.rs:2338-2345 | Two shapes, each with anything after it, are spelt alike only where they and what follows are the same. |
| `HostShapes.Takes` | native/crates/abi/src/lib.rs:2446-2489 | Refused exactly where the entry and what it is over do not go together, and otherwise the parameters of the parts in their order. |
| `HostShapes.PartStands` | native/crates/abi/src/lib.rs:2446-2489 | A part's parameters begin where those of the parts before it end. |
| `HostShapes.GivenAndRoomInOrder` | native/crates/abi/src/lib.rs:2446-2489 | Word for word, what an entry is over is given, what it answers is room and a list's element is a slice, at the place its part stands. |
| `HostSymbols.HostName` | native/crates/abi/src/lib.rs:440-450 | A name is added character by character, ASCII letters and digits as they are, `_` doubled and any other as its code point. |
| `HostSymbols.HostModule` | native/crates/abi/src/lib.rs:430-437 | A module is the prefix with its generation and each segment after `_m_`. |
| `HostSymbols.NameReadsBack` | native/crates/abi/src/lib.rs:420-428 | A name of any Unicode characters is read back whole from the left, up to whatever mark or end follows it. |
| `HostSymbols.SegmentsAreDotted` | native/crates/abi/src/lib.rs:430-437 | A dotted name is its segments, none of which has a dot, and nothing is lost in splitting it. |
| `HostSymbols.ModuleAsWritten` | native/crates/abi/src/lib.rs:430-437 | Modules of one segment and of two are written as a library's symbols write them. |
| `HostSymbols.ReachedAsWritten` | native/crates/abi/src/lib.rs:468-706 | Each kind with each of its operations is written with the letters a library's symbols have for it. |
| `HostSymbols.SymbolReadsBack` | native/crates/abi/src/lib.rs:407-460 | A reader from the left recovers module, kind, names, field, row, shape and operation from every host symbol. |
| `HostSymbols.SymbolsAreApart` | native/crates/abi/src/lib.rs:468-616 | Two things share a symbol exactly where they are one thing. |
| `HostSymbols.ReachedReadsBack` | native/crates/abi/src/lib.rs:468-706 | Under a module, each kind of symbol with each of its operations reads back as itself. |
| `HostSymbols.SymbolIsIdentifier` | native/crates/abi/src/lib.rs:407-428 | Every host symbol is a C identifier and carries neither `.` nor `$`. |
| `HostSymbols.HostIsNotBetween` | native/crates/abi/src/lib.rs:407-428 | No host symbol is an entry, a held copy, a value, a constructor, a reader, a row or a boundary of any object, a token of a type or of a built-in case, the symbol of any generation of the runtime or any function of the runtime's, under whatever names. |
| `HostSymbols.BoundaryMeetsHeldCopy` | native/crates/abi/src/lib.rs:797-799 | Symbols between objects are not all apart: the boundary of a behavior is spelt as a helper named `boundary` that a module of the behavior's dotted name holds. |
| `Decimals.NewNormalises` | bindings/rust/runtime/src/decimal.rs:32-47 | Taken exactly where the text is an optional `-` and digits, and then the integer and the scale are the ones written, in normal form. |
| `Decimals.CompareIsNumeric` | bindings/rust/runtime/src/decimal.rs:104-128 | For integers of any length and any scales, the order worked out on sign, place and digit text is the order of integer over ten to the scale, compared over the larger scale. |
| `Decimals.CompareIsReal` | bindings/rust/runtime/src/decimal.rs:104-128 | The same said of the amounts as real numbers, in all three outcomes. |
| `Decimals.EqualIsSameAmount` | bindings/rust/runtime/src/decimal.rs:72-96 | Equality, which is equality of what is hashed, holds exactly for equal amounts, and is comparing equal. |
| `Decimals.LexicalIsNumeric` | bindings/rust/runtime/src/decimal.rs:104-127 | Digits standing at one place compare as text as they do as numbers where neither ends in a nought, a beginning before what it begins. |
| `Decimals.AmountLaid` | bindings/rust/runtime/src/decimal.rs:72-82 | An amount's digits end in no nought and stand with the first of them at its magnitude. |
| `Calendar.CivilOfDays` | bindings/rust/runtime/src/temporal.rs:25-52 | For every day of the calendar in any year, counting its days and reading the count back gives it. |
| `Calendar.DaysOfCivil` | bindings/rust/runtime/src/temporal.rs:25-52 | For every count of days, reading it gives a day of the calendar whose count it is. |
| `Calendar.OrderIsDayOrder` | bindings/rust/runtime/src/temporal.rs:103-108 | The derived order on year, month and day is the order of the days. |
| `Calendar.DatesAreDays` | native/crates/abi/src/lib.rs:1406 | Days whose year a date holds are exactly the days the ABI says a date holds. |
| `Calendar.DaysAreDates` | bindings/rust/runtime/src/temporal.rs:117-128 | A count is in that range exactly where it reads as a date `Date::new` takes. |
| `Calendar.MomentsAreSeconds` | bindings/rust/runtime/src/temporal.rs:18-21 | The first and last second are the ABI's, and a second is between them exactly where its day is in a year from -1000000000 to 1000000000. |
| `Calendar.DaysFit` | bindings/rust/runtime/src/temporal.rs:25-34 | Nothing worked out from a day of those years leaves sixty-four bits. |
| `Calendar.CivilFits` | bindings/rust/runtime/src/temporal.rs:36-52 | Nor anything worked out from any count of seconds of sixty-four bits. |
| `Calendar.FloorIsEuclidean` | bindings/go/runtime/temporal.go:66-74 | Division corrected after truncating is Euclidean division, and so its remainder, for every dividend and positive divisor. |
| `Calendar.GoCountsTheSame` | bindings/php/runtime/src/Calendar.php:78-91 | The truncating form, which Go and PHP share, reads every count of days as the Euclidean form does. |
| `Calendar.GoCountsBackTheSame` | bindings/go/runtime/temporal.go:237-247 | Go counts the days of every month of every year as Rust does, though it finds the month from March by a remainder. |
| `Calendar.GoLeapsTheSame` | bindings/go/runtime/temporal.go:76-78 | The same years are leap years. |
| `InstantText.DateReads` | bindings/go/runtime/temporal.go:270-282 | A date written with a year of any size and sign is read back as the date. |
| `InstantText.ClockReads` | bindings/go/runtime/temporal.go:296-312 | A clock written with no fraction or one of three, six or nine digits is read back as the clock. |
| `InstantText.FractionReads` | bindings/go/runtime/temporal.go:219-233 | A fraction of any of its widths, filled to nine digits, is the nanoseconds it was written from. |
| `InstantText.FractionIsShortest` | bindings/go/runtime/temporal.go:223-231 | Of the texts of three, six or nine digits that are read as the nanoseconds, the one written is the shortest and the only one of its length. |
| `InstantText.DateLength` | bindings/go/runtime/temporal.go:93-105 | Years from 0 to 9999 are written in four digits and no sign, ten characters in all; past them with a `+` and as many digits as there are, and below nought with a `-` and at least four. |
| `InstantText.FractionOfAnyLength` | bindings/go/runtime/temporal.go:307-311 | Digits after a point, from one to nine, are read as so many tenths, hundredths and on of a second. |
| `InstantText.ShortClockReads` | bindings/go/runtime/temporal.go:296-312 | A clock written with no second is read with none. |
| `InstantText.ClockLength` | bindings/go/runtime/temporal.go:219-233 | A clock is two digits each of hour, minute and second, with a point before a fraction where there is one. |
| `InstantText.WrittenReadsBack` | bindings/go/runtime/temporal.go:346-357 | For every second and nanosecond an instant holds, what is written is read back as it, taking the form check as admitting what is written. |
| `Fibers.AlwaysKept` | bindings/php/runtime/src/NativeLibrary.php:208-235 | After any starts and ends of runs on any fibers, each library's open runs are one stack on one fiber, and its scopes theirs. |
| `Fibers.DisciplineAlways` | bindings/php/runtime/src/NativeLibrary.php:208-247 | Over every interleaving: open runs in strictly increasing order on the holder's fiber, a session active exactly where it is among them, and the end of a fiber's innermost run refused by neither the library nor the arena. |
| `Fibers.ActiveIsOpen` | bindings/php/runtime/src/Session.php:73-95 | A session is active exactly where it is on its library's stack, and that stack is on its fiber. |
| `Fibers.UsableStands` | bindings/php/runtime/src/Session.php:143-171 | A session that may be used is of a run on this fiber whose scope is open, and one a computation may be started through has the innermost scope. |
| `Fibers.UsableIsGoing` | bindings/php/runtime/src/Session.php:139-153 | And none is refused that might be: a session is used exactly where its run is one of those going on the fiber asking, others inside it or not. |
| `Fibers.CallableIsLast` | bindings/php/runtime/src/Session.php:155-171 | And a computation is started through exactly the last of a library's runs going on the fiber. |
| `Fibers.Runtime.Ask` | bindings/php/runtime/src/Session.php:139-153 | A session is refused as over exactly where its run is going on no fiber, and for the fiber exactly where it is going on another. |
| `Fibers.Runtime.AskToCall` | bindings/php/runtime/src/Session.php:155-171 | And refused besides as not the innermost exactly where it is going here with another of its library's after it. |
| `Fibers.Runtime.StartRun` | bindings/php/runtime/src/Binding.php:178-186 | A run is begun exactly where no other fiber's calls hold a run of the library; it is then the library's innermost and the one computations may be started through on its fiber, and opened after every run going of any library; and where it is refused no session and no scope was opened. |
| `Fibers.Runtime.EndRun` | bindings/php/runtime/src/Binding.php:187-198 | The innermost run of a fiber ends: its session expires, its scope comes off its arena, the fiber lets go of the library with its last run there, and neither the library nor the arena refuses. |
| `Fibers.Runtime.InnermostOf` | bindings/php/runtime/src/Binding.php:217-231 | The loop over libraries answers the run opened last of those going on this fiber of any of them, and none exactly where there is none. |
| `Loads.AlwaysKept` | bindings/rust/runtime/src/native.rs:26-34 | After any loads and drops interleaved, the count of each library is the loads counted and not let go of, a library not held is not in the table, and what keeps something is what is held. |
| `Loads.ReleasedOnlyByTheLast` | bindings/rust/runtime/src/native.rs:174-190 | A library is released only by the last load holding it, and then no load holds it. |
| `Loads.UnloadedAfterRelease` | bindings/go/runtime/native_unix.go:87-98 | A library is never unloaded after being counted without a release since it was last counted. |
| `Loads.CountedIsHeld` | bindings/rust/runtime/src/native.rs:174-181 | A load that is counted always finds its library in the table. |
| `Loads.Table.HoldLibrary` | bindings/go/runtime/native_unix.go:75-80 | A load is counted, first or not, and the count is the number of loads that hold the library. |
| `Loads.Table.CloseHandle` | bindings/go/runtime/native_unix.go:87-98 | A load closed unloads its library exactly where no other has it open, and then no load holds it and it keeps nothing. |
| `Loads.Table.LetGoOf` | bindings/rust/runtime/src/native.rs:174-190 | A load is taken off, the library released exactly where no other load holds it and then off the table. |
| `Capabilities.Bound.Requirements` | bindings/rust/runtime/src/bound.rs:178-184 | A settled verdict accepts a runtime exactly where it made everything the behavior stands on, at any depth. |
| `Capabilities.MadeIsThroughout` | bindings/rust/runtime/src/bound.rs:139-149 | A verdict settled from the verdicts beneath it is the one of the whole tree. |
| `Capabilities.Walk` | bindings/go/runtime/capability.go:79-90 | The loop over what is required, stopping at the first refusal, answers the recursive verdict. |
| `Capabilities.OfIsFirstRefusal` | bindings/go/runtime/capability.go:79-90 | The verdict is that of the first of its questions not passed, asked in one order over the whole tree: a run that is over where one comes first, another runtime's where that does. |
| `Capabilities.RequirementsWalked` | bindings/go/runtime/capability.go:53-70 | Whether its own run is live is asked first, and it is accepted exactly where every run is live and the runtime made everything. |
| `Capabilities.WalkAccepts` | bindings/go/runtime/capability.go:63-90 | The walk accepts exactly what is of the runtime throughout with every run live. |
| `Capabilities.SettledIsWalked` | bindings/rust/runtime/src/bound.rs:197-209 | For capabilities of any shape with every run live, the verdict settled once and the walk at each call are one. |
| `JsonPointers.OnceIsInTurn` | bindings/php/runtime/src/Session.php:637-647 | For every text, one pass replacing `~1` and `~0` where they are met is replacing all of the one and then all of the other. |
| `JsonPointers.EscapeUndone` | bindings/go/runtime/words_unix.go:312-313 | Both undo the escaping of every segment. |
| `JsonPointers.SegmentsReadBack` | bindings/php/runtime/src/Session.php:637-647 | A pointer to any segments of any characters is read back as those segments. |
| `JsonPointers.GoPath` | bindings/go/runtime/words_unix.go:307-321 | Go's loop reads the segments PHP does, each as an index or a key. |
| `JsonPointers.StepsKeepSegments` | bindings/go/runtime/words_unix.go:314-318 | A segment is held as an index exactly where it is a number as it is written, and is read off what holds it either way. |

## Left out

- GoCalls.ProperExactly: trees alike may differ in what is made as well as in how leaves end; where nothing were ever made, a callback gone astray that answers can leave no trace at all.
- GoCalls.GoMeansNative: Go's runs are modelled on values, so that a tree can be shown to go wrong; what is updated in place there is `CallFrames.Thread`'s for Rust.
- Checking.HoldDocument: that a definition's requirements are its target's is taken as given, and so is what `resolves`, the reasons a node names for ending, and the numbering of sites refuse besides; each refuses more, so what is proved of documents accepted here is of all the source accepts.
- Checking.BodyWalk.Node: operators, published values, rows and rules are not among the nodes.
- Inclusion.FitsExactly: what functions take is of cases, optionals, lists and functions, because no node takes a set, a map or the length of a tuple apart, and so no function of this model goes wrong by one. What has no value fits by its own clause, and types with no value inside fit or not as `Inclusion.FitsThrough` says of every type.
- Exactness.RoutingExactly: the requirements a stage is handed are `Checking.HoldHanded`'s.
- Walks.WalkOfPairs: the order keys stand in is the model's own, where the runtime keeps them in its trie's.
- Copies.CopyIsTheValue: a type named by a declaration, a union, a set, a map and a function are read whole; `Laws.FieldOfConstruct`, `Laws.FirstStands` and `Laws.ApplyOfBlock` are of their parts.
- Soundness.Sound: the same nodes, and helpers with type variables; a walk is written as the parts `Step::of_walk` reads it into; and a growth past what a list holds, which ends the run.
- Naming.StepsKeptExactly: the steps it ranges over are alike in everything but the numbers answered by and need not be of one type, since the pass reads no type; `GrownAgain` is a typed one. A run is stuck by such an answer only where it takes the way to it.
- Planner.Planning.Walk: a site's number, that no two sites share one, and the table from a node's address to its site.
- GoRuns.SafeAlways: a release that itself panics, and threads numbered again while a run is open on them, which locking a goroutine to its thread rules out.
- Fibers.DisciplineAlways: a fiber destroyed while it is suspended in a run.
- Decimals.CompareIsNumeric: places are counted without bound, where the source counts them in sixty-four bits.
- InstantText.WrittenReadsBack: the form check of notation-199x is a parameter, and a number that is not digits reads as nought, which the check never lets through.
- Capabilities.Bound.Requirements: the room a binding lays out and what a library writes into it.
- Cranelift emission, the boundary functions, the C layouts and dlopen, cgo and FFI: thin calls into what is not in the repository.
- Row outcomes, status tables, options and tuples of the bindings: single-branch facts.
- The examples, HTTP, SQL and JSON decoding: application glue over libraries that are not here.
