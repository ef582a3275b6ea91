/** What the declarations of a document answer about its types: the cases a type descends to,
    where a field stands, which departure a clause takes, and when one type stands as another
    (`Declared` and `departures_taken` in native/crates/compiler/src/lib.rs). */
module Declarations {
  import opened Options
  import opened Transport

  type Declared = map<string, Declaration>

  /** `c` can be looked up: only a declared case can fail to be. */
  predicate Known(d: Declared, c: Case) {
    c.Declared? ==> c.key in d
  }

  predicate AllKnown(d: Declared, members: seq<Case>) {
    forall i :: 0 <= i < |members| ==> Known(d, members[i])
  }

  /** One member as the cases it stands for: a sum gives way to its cases, one step down. */
  function Reached(d: Declared, member: Case): seq<Case> {
    if member.Declared? && member.key in d && d[member.key].Sum? then d[member.key].cases else [member]
  }

  /** `leaves + more` without the elements of `more` that came up earlier. */
  function Merged(leaves: seq<Case>, more: seq<Case>): (r: seq<Case>)
    ensures forall c :: c in r <==> c in leaves || c in more
    decreases |more|
  {
    if more == [] then leaves
    else if more[0] in leaves then Merged(leaves, more[1..])
    else
      Merged(leaves + [more[0]], more[1..])
  }

  /** `Reached` of every member, flattened with no case twice. */
  function LeavesOf(d: Declared, members: seq<Case>): (r: seq<Case>)
    ensures forall c :: c in r <==> exists i :: 0 <= i < |members| && c in Reached(d, members[i])
    decreases |members|
  {
    if members == [] then []
    else
      var last := |members| - 1;
      var r := Merged(LeavesOf(d, members[..last]), Reached(d, members[last]));
      assert forall i :: 0 <= i < last ==> members[..last][i] == members[i];
      r
  }

  /** The set of cases behind a `Ref`, a `Union` or a `Prim`, and `None` for every other constructor or
      an unknown name. */
  function CasesOf(d: Declared, ty: Ty): Option<seq<Case>> {
    match ty
    case Ref(named) => if Known(d, named) then Some(LeavesOf(d, [named])) else None
    case Union(cases) => if AllKnown(d, cases) then Some(LeavesOf(d, cases)) else None
    case Prim(prim) => Some([Primitive(prim)])
    case _ => None
  }

  /** The subjects `Which` may be tested of. */
  predicate HasCases(d: Declared, ty: Ty) {
    match ty
    case Union(_) => true
    case Ref(Declared(key)) => key in d && d[key].Sum?
    case _ => false
  }

  /** The types that may be routed by cases: every union, and a `Ref` to anything but a primitive. */
  predicate SaysItsCase(ty: Ty) {
    ty.Union? || (ty.Ref? && !ty.named.Primitive?)
  }

  /** None of `cases` is a sum, each being a leaf the checker descended to. */
  predicate AreLeaves(d: Declared, cases: seq<Case>) {
    forall i :: 0 <= i < |cases| ==> cases[i].Declared? ==> cases[i].key in d && !d[cases[i].key].Sum?
  }

  // ----- fields -----

  function FieldsOf(declaration: Declaration): seq<Field> {
    match declaration
    case Product(fields, _) => fields
    case Newtype(field, _) => [field]
    case UnitOf => []
    case Sum(_) => []
  }

  predicate IsBuilt(declaration: Declaration) {
    declaration.Product? || declaration.Newtype?
  }

  function ClausesOf(declaration: Declaration): seq<ClauseName> {
    if IsBuilt(declaration) then declaration.clauses else []
  }

  /** Where the first field of that name stands. */
  function PositionOf(fields: seq<Field>, name: string): (r: Option<nat>)
    ensures r.Some? ==> r.value < |fields| && fields[r.value].name == name
    ensures r.None? ==> forall i :: 0 <= i < |fields| ==> fields[i].name != name
  {
    if fields == [] then None
    else if fields[0].name == name then Some(0)
    else
      match PositionOf(fields[1..], name)
      case Some(at) => Some(at + 1)
      case None => None
  }

  // ----- departures -----

  /** The place of the last departure written for `clause`. */
  function DepartureNaming(departures: seq<Departure>, clause: ClauseName): (r: Option<nat>)
    ensures r.Some? ==> r.value < |departures| && departures[r.value].taking == OneClause(clause)
    ensures r.Some? <==> exists i :: 0 <= i < |departures| && departures[i].taking == OneClause(clause)
  {
    if departures == [] then None
    else
      match DepartureNaming(departures[1..], clause)
      case Some(at) => Some(at + 1)
      case None => if departures[0].taking == OneClause(clause) then Some(0) else None
  }

  predicate NamedOnce(departures: seq<Departure>) {
    forall i, j :: 0 <= i < j < |departures| ==> departures[i].taking != departures[j].taking
  }

  predicate ForAnyClause(departures: seq<Departure>) {
    |departures| == 1 && departures[0].taking.AnyClause?
  }

  /** The departures and the clauses match up: a single departure written for any clause, or one
      written for each clause and none for a clause that is not there. */
  predicate DeparturesTaken(clauses: seq<ClauseName>, departures: seq<Departure>) {
    || ForAnyClause(departures)
    || (&& NamedOnce(departures)
        && (forall i :: 0 <= i < |departures| ==> departures[i].taking.OneClause? && departures[i].taking.clause in clauses)
        && (forall i :: 0 <= i < |clauses| ==> DepartureNaming(departures, clauses[i]).Some?))
  }

  /** Which departure is gone to when the clause at `place` breaks: the one for any clause, or the one
      written for that clause, a clause with no name included. */
  function DepartureFor(clauses: seq<ClauseName>, departures: seq<Departure>, place: nat): (r: Option<nat>)
    ensures r.Some? ==> place < |clauses| && r.value < |departures|
    ensures r.Some? && !ForAnyClause(departures) ==> departures[r.value].taking == OneClause(clauses[place])
    ensures DeparturesTaken(clauses, departures) ==> (r.Some? <==> place < |clauses|)
  {
    if place >= |clauses| then None
    else if ForAnyClause(departures) then Some(0)
    else DepartureNaming(departures, clauses[place])
  }

  /** No other departure is written for the clause gone to. */
  lemma DepartureIsTheOne(clauses: seq<ClauseName>, departures: seq<Departure>, place: nat, other: nat)
    requires DeparturesTaken(clauses, departures) && place < |clauses| && other < |departures|
    ensures var at := DepartureFor(clauses, departures, place);
      at.Some? && (other == at.value <==> departures[other].taking == AnyClause || departures[other].taking == OneClause(clauses[place]))
  {
  }

  // ----- one type standing as another -----

  /** Every case of the one is among the other's. */
  predicate CasesWithin(d: Declared, actual: Ty, expected: Ty) {
    var a, e := CasesOf(d, actual), CasesOf(d, expected);
    a.Some? && e.Some? && forall c :: c in a.value ==> c in e.value
  }

  /** Whether `x` fits `y` where `up`, and `y` fits `x` where not: the two arguments are walked
      together, and a function's parameters turn the direction. */
  predicate FitsToward(d: Declared, x: Ty, y: Ty, up: bool)
    decreases x
  {
    || x == y
    || HasNoValue(if up then x else y)
    || (match (x, y)
        case (Optional(a), Optional(b)) => FitsToward(d, a, b, up)
        case (List(a), List(b)) => FitsToward(d, a, b, up)
        case (Set(a), Set(b)) => FitsToward(d, a, b, up)
        case (Map(k, a), Map(l, b)) => FitsToward(d, k, l, up) && FitsToward(d, a, b, up)
        case (Tuple(a), Tuple(b)) =>
          |a| == |b| && forall i :: 0 <= i < |a| ==> FitsToward(d, a[i], b[i], up)
        case (Fn(a, p), Fn(b, q)) =>
          && |a| == |b|
          && (forall i :: 0 <= i < |a| ==> FitsToward(d, a[i], b[i], !up))
          && FitsToward(d, p, q, up)
        case _ => if up then CasesWithin(d, x, y) else CasesWithin(d, y, x))
  }

  /** The decision procedure for inclusion of types, begun upwards; an unknown name makes it false.
      `Typing.FitsIsInclusion` is what it decides. */
  predicate Fits(d: Declared, actual: Ty, expected: Ty) {
    FitsToward(d, actual, expected, true)
  }
}
