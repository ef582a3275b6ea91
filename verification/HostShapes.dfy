/** Shapes of host values as words and as text inside a symbol, a reader of that text, and the parameter
    lists of entries (`HostShape`, `HostEntry` in native/crates/abi/src/lib.rs). */
module HostShapes {
  import opened Options
  import opened Text

  datatype HostLeaf = IntLeaf | BoolLeaf | StringLeaf | DecimalLeaf | DateLeaf | TimeLeaf | DateTimeLeaf | InstantLeaf | ValueLeaf

  datatype HostWord =
    | StatusWord | CaseWord | OutcomeWord | CountWord | ScopeWord | BytesWord | DecodedWord | IssueWord
    | ListWord | RequirementsWord | CapabilityWord | UserdataWord | FunctionWord
    | LeafWord(leaf: HostLeaf)

  datatype HostShape =
    | Leaf(leaf: HostLeaf)
    | OptionOf(held: HostShape)
    | Product(members: seq<HostShape>)
    | ListOf(element: HostShape)
    | FunctionOf(takes: seq<HostShape>, answers: HostShape)

  // ----- words -----

  function Words(shape: HostShape): seq<HostWord> {
    match shape
    case Leaf(leaf) => [LeafWord(leaf)]
    case OptionOf(held) => [LeafWord(BoolLeaf)] + Words(held)
    case Product(members) => AllWords(members)
    case ListOf(_) => [ListWord]
    case FunctionOf(_, _) => [FunctionWord]
  }

  function AllWords(shapes: seq<HostShape>): seq<HostWord> {
    if shapes == [] then [] else AllWords(shapes[..|shapes| - 1]) + Words(shapes[|shapes| - 1])
  }

  /** The words, added one after another to what is there. */
  method WordsInto(shape: HostShape, before: seq<HostWord>) returns (words: seq<HostWord>)
    ensures words == before + Words(shape)
    decreases shape
  {
    words := before;
    match shape
    case Leaf(leaf) => words := words + [LeafWord(leaf)];
    case OptionOf(held) =>
      words := words + [LeafWord(BoolLeaf)];
      words := WordsInto(held, words);
    case Product(members) =>
      for i := 0 to |members|
        invariant words == before + AllWords(members[..i])
      {
        words := WordsInto(members[i], words);
        assert members[..i + 1][..i] == members[..i];
      }
      assert members[..|members|] == members;
    case ListOf(_) => words := words + [ListWord];
    case FunctionOf(_, _) => words := words + [FunctionWord];
  }

  // ----- spelling -----

  function LeafSpelt(leaf: HostLeaf): (r: string)
    ensures r != [] && '_' !in r
  {
    match leaf
    case IntLeaf => "int"
    case BoolLeaf => "bool"
    case StringLeaf => "string"
    case DecimalLeaf => "decimal"
    case DateLeaf => "date"
    case TimeLeaf => "time"
    case DateTimeLeaf => "datetime"
    case InstantLeaf => "instant"
    case ValueLeaf => "value"
  }

  function Spelt(shape: HostShape): string {
    match shape
    case Leaf(leaf) => LeafSpelt(leaf)
    case OptionOf(held) => "o" + ("_" + Spelt(held))
    case Product(members) => ("t" + Numeral(|members|)) + AllSpelt(members)
    case ListOf(element) => "l" + ("_" + Spelt(element))
    case FunctionOf(takes, answers) => ("f" + Numeral(|takes|)) + (AllSpelt(takes) + ("_" + Spelt(answers)))
  }

  /** Each after a `_`. */
  function AllSpelt(shapes: seq<HostShape>): string {
    if shapes == [] then "" else ("_" + Spelt(shapes[0])) + AllSpelt(shapes[1..])
  }

  lemma {:induction false} AllSpeltAppend(a: seq<HostShape>, b: seq<HostShape>)
    ensures AllSpelt(a + b) == AllSpelt(a) + AllSpelt(b)
  {
    if a == [] {
      assert a + b == b;
      assert AllSpelt(a) + AllSpelt(b) == AllSpelt(b);
    } else {
      AllSpeltAppend(a[1..], b);
      assert (a + b)[0] == a[0] && (a + b)[1..] == a[1..] + b;
      Assoc("_" + Spelt(a[0]), AllSpelt(a[1..]), AllSpelt(b));
    }
  }

  /** The spelling, added to what is there. */
  method SpeltInto(shape: HostShape, before: string) returns (spelt: string)
    ensures spelt == before + Spelt(shape)
    decreases shape, 2
  {
    match shape
    case Leaf(leaf) => spelt := before + LeafSpelt(leaf);
    case OptionOf(held) =>
      spelt := ThenInto(shape, held, before + "o");
      Assoc(before, "o", "_" + Spelt(held));
    case Product(members) =>
      spelt := EachInto(shape, members, before + ("t" + Numeral(|members|)));
      Assoc(before, "t" + Numeral(|members|), AllSpelt(members));
    case ListOf(element) =>
      spelt := ThenInto(shape, element, before + "l");
      Assoc(before, "l", "_" + Spelt(element));
    case FunctionOf(takes, answers) =>
      var mark := "f" + Numeral(|takes|);
      spelt := EachInto(shape, takes, before + mark);
      spelt := ThenInto(shape, answers, spelt);
      Assoc(before + mark, AllSpelt(takes), "_" + Spelt(answers));
      Assoc(before, mark, AllSpelt(takes) + ("_" + Spelt(answers)));
  }

  method ThenInto(ghost parent: HostShape, shape: HostShape, before: string) returns (spelt: string)
    requires shape < parent
    ensures spelt == before + ("_" + Spelt(shape))
    decreases shape, 3
  {
    spelt := SpeltInto(shape, before + "_");
    Assoc(before, "_", Spelt(shape));
  }

  method EachInto(ghost parent: HostShape, shapes: seq<HostShape>, before: string) returns (spelt: string)
    requires forall i :: 0 <= i < |shapes| ==> shapes[i] < parent
    ensures spelt == before + AllSpelt(shapes)
    decreases parent, 0
  {
    spelt := before;
    for i := 0 to |shapes|
      invariant spelt == before + AllSpelt(shapes[..i])
    {
      spelt := ThenInto(parent, shapes[i], spelt);
      AllSpeltNext(shapes, i);
      Assoc(before, AllSpelt(shapes[..i]), "_" + Spelt(shapes[i]));
    }
    assert shapes[..|shapes|] == shapes;
  }

  lemma AllSpeltNext(shapes: seq<HostShape>, i: nat)
    requires i < |shapes|
    ensures AllSpelt(shapes[..i + 1]) == AllSpelt(shapes[..i]) + ("_" + Spelt(shapes[i]))
  {
    assert shapes[..i + 1] == shapes[..i] + [shapes[i]];
    AllSpeltAppend(shapes[..i], [shapes[i]]);
    OneSpelt(shapes[i]);
  }

  lemma OneSpelt(shape: HostShape)
    ensures AllSpelt([shape]) == "_" + Spelt(shape)
  {
    assert [shape][1..] == [];
    assert AllSpelt([]) == "";
  }

  // ----- reading it back from the left -----

  datatype Token = Token(text: string, rest: string)

  /** What stands before the next `_`, or the end. */
  function NextToken(s: string): (r: Token)
    ensures |r.text| + |r.rest| == |s|
  {
    if s == [] || s[0] == '_' then Token([], s)
    else
      var r := NextToken(s[1..]);
      Token([s[0]] + r.text, r.rest)
  }

  datatype ShapeRead = NoShape | ShapeRead(shape: HostShape, rest: string)
  datatype ShapesRead = NoShapes | ShapesRead(shapes: seq<HostShape>, rest: string)

  function LeafNamed(text: string): Option<HostLeaf> {
    if text == "int" then Some(IntLeaf)
    else if text == "bool" then Some(BoolLeaf)
    else if text == "string" then Some(StringLeaf)
    else if text == "decimal" then Some(DecimalLeaf)
    else if text == "date" then Some(DateLeaf)
    else if text == "time" then Some(TimeLeaf)
    else if text == "datetime" then Some(DateTimeLeaf)
    else if text == "instant" then Some(InstantLeaf)
    else if text == "value" then Some(ValueLeaf)
    else None
  }

  /** The count a mark says, where it is `mark` and a number. */
  function Counted(text: string, mark: char): Option<nat> {
    if |text| > 1 && text[0] == mark && AllDigits(text[1..]) then Some(NumberIn(text[1..])) else None
  }

  /** One shape off the front, the count in a mark saying how many follow it. */
  function ReadShape(s: string): (r: ShapeRead)
    ensures r.ShapeRead? ==> |r.rest| < |s|
    decreases |s|, 1
  {
    var token := NextToken(s);
    if token.text == [] then NoShape
    else if LeafNamed(token.text).Some? then ShapeRead(Leaf(LeafNamed(token.text).value), token.rest)
    else if token.text == "o" then
      (match ReadAfter(token.rest)
       case ShapeRead(held, rest) => ShapeRead(OptionOf(held), rest)
       case NoShape => NoShape)
    else if token.text == "l" then
      (match ReadAfter(token.rest)
       case ShapeRead(element, rest) => ShapeRead(ListOf(element), rest)
       case NoShape => NoShape)
    else if Counted(token.text, 't').Some? then
      (match ReadShapes(Counted(token.text, 't').value, token.rest)
       case ShapesRead(members, rest) => ShapeRead(Product(members), rest)
       case NoShapes => NoShape)
    else if Counted(token.text, 'f').Some? then
      (match ReadShapes(Counted(token.text, 'f').value, token.rest)
       case ShapesRead(takes, rest) =>
         (match ReadAfter(rest)
          case ShapeRead(answers, rest) => ShapeRead(FunctionOf(takes, answers), rest)
          case NoShape => NoShape)
       case NoShapes => NoShape)
    else NoShape
  }

  function ReadAfter(s: string): (r: ShapeRead)
    ensures r.ShapeRead? ==> |r.rest| < |s|
    decreases |s|, 0
  {
    if s == [] || s[0] != '_' then NoShape else ReadShape(s[1..])
  }

  function ReadShapes(n: nat, s: string): (r: ShapesRead)
    ensures r.ShapesRead? ==> |r.rest| <= |s| && |r.shapes| == n
    decreases |s|, 1
  {
    if n == 0 then ShapesRead([], s)
    else
      match ReadAfter(s)
      case NoShape => NoShapes
      case ShapeRead(first, rest) =>
        match ReadShapes(n - 1, rest)
        case NoShapes => NoShapes
        case ShapesRead(others, rest) => ShapesRead([first] + others, rest)
  }

  /** A token ends at what follows it. */
  predicate Ends(rest: string) {
    rest == [] || rest[0] == '_'
  }

  lemma {:induction false} TokenEnds(text: string, rest: string)
    requires '_' !in text && Ends(rest)
    ensures NextToken(text + rest) == Token(text, rest)
  {
    if text == [] {
      assert text + rest == rest;
    } else {
      TokenEnds(text[1..], rest);
      assert (text + rest)[1..] == text[1..] + rest;
    }
  }

  lemma LeafIsNamed(leaf: HostLeaf)
    ensures LeafNamed(LeafSpelt(leaf)) == Some(leaf)
  {
  }

  lemma MarkIsCounted(mark: char, n: nat)
    requires mark == 't' || mark == 'f'
    ensures var text := [mark] + Numeral(n);
      && '_' !in text && LeafNamed(text).None? && text != "o" && text != "l" && Counted(text, mark) == Some(n)
      && (mark == 'f' ==> Counted(text, 't').None?)
  {
    var text := [mark] + Numeral(n);
    assert text[1..] == Numeral(n);
    NumberOfNumeral(n);
    assert IsDigit(text[1]);
  }

  /** The spelling of shapes is a prefix code: whatever stands after it, an operation or another shape,
      reading takes the shape that was spelt and exactly its characters. */
  lemma {:induction false} ShapeReadsBack(shape: HostShape, rest: string)
    requires Ends(rest)
    ensures ReadShape(Spelt(shape) + rest) == ShapeRead(shape, rest)
    decreases shape, 2
  {
    match shape
    case Leaf(leaf) =>
      TokenEnds(LeafSpelt(leaf), rest);
      LeafIsNamed(leaf);
    case OptionOf(held) => MarkReadsBack(shape, "o", held, rest);
    case ListOf(element) => MarkReadsBack(shape, "l", element, rest);
    case Product(members) => ProductReadsBack(shape, rest);
    case FunctionOf(takes, answers) => FunctionReadsBack(shape, rest);
  }

  lemma {:induction false} ProductReadsBack(shape: HostShape, rest: string)
    requires Ends(rest) && shape.Product?
    ensures ReadShape(Spelt(shape) + rest) == ShapeRead(shape, rest)
    decreases shape, 1
  {
    var text, after := "t" + Numeral(|shape.members|), AllSpelt(shape.members) + rest;
    MarkIsCounted('t', |shape.members|);
    AllSpeltEnds(shape.members, rest);
    TokenEnds(text, after);
    Assoc(text, AllSpelt(shape.members), rest);
    ShapesReadBack(shape, shape.members, rest);
  }

  lemma {:induction false} FunctionReadsBack(shape: HostShape, rest: string)
    requires Ends(rest) && shape.FunctionOf?
    ensures ReadShape(Spelt(shape) + rest) == ShapeRead(shape, rest)
    decreases shape, 1
  {
    var text, answer := "f" + Numeral(|shape.takes|), "_" + Spelt(shape.answers);
    var after := AllSpelt(shape.takes) + (answer + rest);
    MarkIsCounted('f', |shape.takes|);
    AllSpeltEnds(shape.takes, answer + rest);
    TokenEnds(text, after);
    Assoc(text, AllSpelt(shape.takes) + answer, rest);
    Assoc(AllSpelt(shape.takes), answer, rest);
    ShapesReadBack(shape, shape.takes, answer + rest);
    AfterReadsBack(shape, shape.answers, rest);
  }

  lemma AllSpeltEnds(shapes: seq<HostShape>, rest: string)
    requires Ends(rest)
    ensures Ends(AllSpelt(shapes) + rest)
  {
    if shapes == [] { assert AllSpelt(shapes) + rest == rest; }
  }

  lemma {:induction false} AfterReadsBack(parent: HostShape, shape: HostShape, rest: string)
    requires Ends(rest) && shape < parent
    ensures ReadAfter(("_" + Spelt(shape)) + rest) == ShapeRead(shape, rest)
    decreases shape, 3
  {
    ShapeReadsBack(shape, rest);
    Assoc("_", Spelt(shape), rest);
    assert ("_" + (Spelt(shape) + rest))[1..] == Spelt(shape) + rest;
  }

  lemma {:induction false} MarkReadsBack(parent: HostShape, mark: string, inner: HostShape, rest: string)
    requires Ends(rest) && (mark == "o" || mark == "l") && inner < parent
    ensures ReadShape((mark + ("_" + Spelt(inner))) + rest)
         == ShapeRead(if mark == "o" then OptionOf(inner) else ListOf(inner), rest)
    decreases inner, 4
  {
    AfterReadsBack(parent, inner, rest);
    TokenEnds(mark, ("_" + Spelt(inner)) + rest);
    Assoc(mark, "_" + Spelt(inner), rest);
  }

  lemma {:induction false} ShapesReadBack(parent: HostShape, shapes: seq<HostShape>, rest: string)
    requires Ends(rest) && forall i :: 0 <= i < |shapes| ==> shapes[i] < parent
    ensures ReadShapes(|shapes|, AllSpelt(shapes) + rest) == ShapesRead(shapes, rest)
    decreases parent, 0, |shapes|
  {
    if shapes == [] {
      assert AllSpelt(shapes) + rest == rest;
    } else {
      var others := AllSpelt(shapes[1..]) + rest;
      AllSpeltEnds(shapes[1..], rest);
      AfterReadsBack(parent, shapes[0], others);
      Assoc("_" + Spelt(shapes[0]), AllSpelt(shapes[1..]), rest);
      ShapesReadBack(parent, shapes[1..], rest);
      assert shapes == [shapes[0]] + shapes[1..];
    }
  }

  /** Spelling is injective on pairs of a shape and an ending, for endings the reader stops before. */
  lemma SpelledApart(a: HostShape, b: HostShape, after: string, behind: string)
    requires Ends(after) && Ends(behind) && Spelt(a) + after == Spelt(b) + behind
    ensures a == b && after == behind
  {
    ShapeReadsBack(a, after);
    ShapeReadsBack(b, behind);
  }

  // ----- words off the spelling -----

  /** The shapes that follow a mark, as many as it says: one for `o` and `l`, as many as counted for `t`,
      and one more, what is answered, for `f`; none for a leaf. */
  function Follow(text: string): nat {
    if text == "o" || text == "l" then 1
    else if LeafNamed(text).None? && Counted(text, 't').Some? then Counted(text, 't').value
    else if LeafNamed(text).None? && Counted(text, 'f').Some? then Counted(text, 'f').value + 1
    else 0
  }

  /** The word a mark or a leaf is handed over as, where it is one itself. */
  function WordFor(text: string): seq<HostWord> {
    if LeafNamed(text).Some? then [LeafWord(LeafNamed(text).value)]
    else if text == "o" then [LeafWord(BoolLeaf)]
    else if text == "l" then [ListWord]
    else if Counted(text, 'f').Some? then [FunctionWord]
    else []
  }

  /** Whether what follows a mark is behind an address and so no word of its own. */
  predicate Addressed(text: string) {
    text == "l" || (LeafNamed(text).None? && Counted(text, 'f').Some?)
  }

  /** The words of a spelling read once from the left, with no tree: a count of shapes still behind an
      address, which hand over nothing, goes down by the shape read and up by those its mark says follow. */
  function Scanned(s: string, behind: nat): seq<HostWord>
    decreases |s|
  {
    if s == [] then []
    else if s[0] == '_' then Scanned(s[1..], behind)
    else
      var token := NextToken(s);
      assert token.text != [];
      if behind > 0 then Scanned(token.rest, behind - 1 + Follow(token.text))
      else WordFor(token.text) + Scanned(token.rest, if Addressed(token.text) then Follow(token.text) else 0)
  }

  /** Reading `s` down to `rest` hands over the words. */
  predicate Hands(s: string, words: seq<HostWord>, rest: string) {
    Scanned(s, 0) == words + Scanned(rest, 0)
  }

  /** Reading `s` down to `rest` takes so many shapes off what is behind an address. */
  ghost predicate Hides(s: string, shapes: nat, rest: string) {
    forall behind: nat :: Scanned(s, behind + shapes) == Scanned(rest, behind)
  }

  lemma HandsThen(s: string, x: seq<HostWord>, t: string, y: seq<HostWord>, rest: string)
    requires Hands(s, x, t) && Hands(t, y, rest)
    ensures Hands(s, x + y, rest)
  {
    Assoc(x, y, Scanned(rest, 0));
  }

  lemma HidesThen(s: string, n: nat, t: string, m: nat, rest: string)
    requires Hides(s, n, t) && Hides(t, m, rest)
    ensures Hides(s, n + m, rest)
  {
    forall behind: nat ensures Scanned(s, behind + (n + m)) == Scanned(rest, behind) {
      assert Scanned(s, (behind + m) + n) == Scanned(t, behind + m);
    }
  }

  /** One mark or leaf, and the shapes that follow it. */
  lemma TokenScanned(text: string, rest: string, after: string, words: seq<HostWord>)
    requires text != [] && '_' !in text && Ends(rest) && Hides(rest, Follow(text), after)
    requires !Addressed(text) ==> Hands(rest, words, after)
    ensures Hides(text + rest, 1, after)
    ensures Hands(text + rest, if Addressed(text) then WordFor(text) else WordFor(text) + words, after)
  {
    TokenEnds(text, rest);
    forall behind: nat ensures Scanned(text + rest, behind + 1) == Scanned(after, behind) {
      assert Scanned(text + rest, behind + 1) == Scanned(rest, behind + Follow(text));
    }
    assert Scanned(text + rest, 0) == WordFor(text) + Scanned(rest, if Addressed(text) then Follow(text) else 0);
    if Addressed(text) {
      assert Scanned(rest, 0 + Follow(text)) == Scanned(after, 0);
    } else {
      Assoc(WordFor(text), words, Scanned(after, 0));
    }
  }

  lemma NothingScanned(s: string)
    ensures Hands(s, [], s) && Hides(s, 0, s)
  {
    assert [] + Scanned(s, 0) == Scanned(s, 0);
  }

  lemma {:induction false} AllWordsFirst(shapes: seq<HostShape>)
    requires shapes != []
    ensures AllWords(shapes) == Words(shapes[0]) + AllWords(shapes[1..])
    decreases |shapes|
  {
    var last := |shapes| - 1;
    if last == 0 {
      assert AllWords(shapes[..0]) == [] && AllWords(shapes[1..]) == [];
    } else {
      AllWordsFirst(shapes[..last]);
      assert shapes[..last][1..] == shapes[1..][..last - 1];
      Assoc(Words(shapes[0]), AllWords(shapes[1..][..last - 1]), Words(shapes[last]));
    }
  }

  /** The words of a shape are those of its spelling read from the left: a presence stands right before the
      words of what it marks, members one after another, and a list or a function is one word whatever is
      behind it. */
  lemma WordsAreScanned(shape: HostShape)
    ensures Words(shape) == Scanned(Spelt(shape), 0)
  {
    ShapeScanned(shape, []);
    assert Spelt(shape) + [] == Spelt(shape);
    assert Words(shape) + [] == Words(shape);
  }

  lemma {:induction false} ShapeScanned(shape: HostShape, rest: string)
    requires Ends(rest)
    ensures Hands(Spelt(shape) + rest, Words(shape), rest) && Hides(Spelt(shape) + rest, 1, rest)
    decreases shape, 2
  {
    match shape
    case Leaf(leaf) =>
      LeafIsNamed(leaf);
      NothingScanned(rest);
      TokenScanned(LeafSpelt(leaf), rest, rest, []);
      assert [LeafWord(leaf)] + [] == [LeafWord(leaf)];
    case OptionOf(held) => MarkScanned(shape, "o", held, rest);
    case ListOf(element) => MarkScanned(shape, "l", element, rest);
    case Product(_) => ProductScanned(shape, rest);
    case FunctionOf(_, _) => FunctionScanned(shape, rest);
  }

  lemma {:induction false} AfterScanned(parent: HostShape, shape: HostShape, rest: string)
    requires Ends(rest) && shape < parent
    ensures Hands(("_" + Spelt(shape)) + rest, Words(shape), rest) && Hides(("_" + Spelt(shape)) + rest, 1, rest)
    decreases shape, 3
  {
    var s := Spelt(shape) + rest;
    ShapeScanned(shape, rest);
    Assoc("_", Spelt(shape), rest);
    assert ("_" + s)[1..] == s;
    forall behind: nat ensures Scanned("_" + s, behind) == Scanned(s, behind) { }
    forall behind: nat ensures Scanned("_" + s, behind + 1) == Scanned(rest, behind) { }
  }

  lemma {:induction false} MarkScanned(parent: HostShape, mark: string, inner: HostShape, rest: string)
    requires Ends(rest) && (mark == "o" || mark == "l") && inner < parent
    ensures Hands((mark + ("_" + Spelt(inner))) + rest,
                  if mark == "o" then [LeafWord(BoolLeaf)] + Words(inner) else [ListWord], rest)
    ensures Hides((mark + ("_" + Spelt(inner))) + rest, 1, rest)
    decreases inner, 4
  {
    AfterScanned(parent, inner, rest);
    TokenScanned(mark, ("_" + Spelt(inner)) + rest, rest, Words(inner));
    Assoc(mark, "_" + Spelt(inner), rest);
  }

  lemma {:induction false} ProductScanned(shape: HostShape, rest: string)
    requires Ends(rest) && shape.Product?
    ensures Hands(Spelt(shape) + rest, Words(shape), rest) && Hides(Spelt(shape) + rest, 1, rest)
    decreases shape, 1
  {
    var text := "t" + Numeral(|shape.members|);
    MarkIsCounted('t', |shape.members|);
    AllSpeltEnds(shape.members, rest);
    ShapesScanned(shape, shape.members, rest);
    assert Counted(text, 'f').None? && WordFor(text) == [];
    TokenScanned(text, AllSpelt(shape.members) + rest, rest, AllWords(shape.members));
    assert [] + AllWords(shape.members) == AllWords(shape.members);
    Assoc(text, AllSpelt(shape.members), rest);
  }

  lemma {:induction false} FunctionScanned(shape: HostShape, rest: string)
    requires Ends(rest) && shape.FunctionOf?
    ensures Hands(Spelt(shape) + rest, [FunctionWord], rest) && Hides(Spelt(shape) + rest, 1, rest)
    decreases shape, 1
  {
    var n := |shape.takes|;
    var text, answer := "f" + Numeral(n), ("_" + Spelt(shape.answers)) + rest;
    MarkIsCounted('f', n);
    ShapesScanned(shape, shape.takes, answer);
    AfterScanned(shape, shape.answers, rest);
    HidesThen(AllSpelt(shape.takes) + answer, n, answer, 1, rest);
    AllSpeltEnds(shape.takes, answer);
    FunctionMark(text, n);
    TokenScanned(text, AllSpelt(shape.takes) + answer, rest, []);
    Assoc(text, AllSpelt(shape.takes) + ("_" + Spelt(shape.answers)), rest);
    Assoc(AllSpelt(shape.takes), "_" + Spelt(shape.answers), rest);
  }

  lemma FunctionMark(text: string, n: nat)
    requires text == "f" + Numeral(n)
    ensures text != [] && '_' !in text && Addressed(text) && WordFor(text) == [FunctionWord] && Follow(text) == n + 1
  {
    MarkIsCounted('f', n);
  }

  lemma {:induction false} ShapesScanned(parent: HostShape, shapes: seq<HostShape>, rest: string)
    requires Ends(rest) && forall i :: 0 <= i < |shapes| ==> shapes[i] < parent
    ensures Hands(AllSpelt(shapes) + rest, AllWords(shapes), rest) && Hides(AllSpelt(shapes) + rest, |shapes|, rest)
    decreases parent, 0, |shapes|
  {
    if shapes == [] {
      assert AllSpelt(shapes) + rest == rest;
      NothingScanned(rest);
    } else {
      var others := AllSpelt(shapes[1..]) + rest;
      AllSpeltEnds(shapes[1..], rest);
      AfterScanned(parent, shapes[0], others);
      ShapesScanned(parent, shapes[1..], rest);
      AllWordsFirst(shapes);
      HandsThen(("_" + Spelt(shapes[0])) + others, Words(shapes[0]), others, AllWords(shapes[1..]), rest);
      HidesThen(("_" + Spelt(shapes[0])) + others, 1, others, |shapes| - 1, rest);
      Assoc("_" + Spelt(shapes[0]), AllSpelt(shapes[1..]), rest);
    }
  }

  lemma TwoSpelt(a: HostShape, b: HostShape)
    ensures AllSpelt([a, b]) == ("_" + Spelt(a)) + ("_" + Spelt(b))
  {
    AllSpeltAppend([a], [b]);
    OneSpelt(a);
    OneSpelt(b);
    assert [a, b] == [a] + [b];
  }

  lemma CountOfTwo(mark: string)
    ensures mark + Numeral(2) == mark + "2"
  {
  }

  /** The marks as the symbols of a library write them, each part after its own `_`. */
  lemma MarksAsWritten(first: HostShape, second: HostShape, answers: HostShape)
    ensures Spelt(OptionOf(first)) == "o" + ("_" + Spelt(first))
    ensures Spelt(ListOf(first)) == "l" + ("_" + Spelt(first))
    ensures Spelt(Product([first, second])) == ("t" + "2") + (("_" + Spelt(first)) + ("_" + Spelt(second)))
    ensures Spelt(FunctionOf([first, second], answers))
         == ("f" + "2") + ((("_" + Spelt(first)) + ("_" + Spelt(second))) + ("_" + Spelt(answers)))
  {
    TwoSpelt(first, second);
    CountOfTwo("t");
    CountOfTwo("f");
  }

  // ----- what a function a host calls takes -----

  datatype HostParameter = Given(word: HostWord) | Room(word: HostWord) | Slice(word: HostWord)

  datatype EntryPart = WordPart(parameter: HostParameter) | Over | AnsweredPart | Columns | Address(named: string)

  function Givens(words: seq<HostWord>): seq<HostParameter> { seq(|words|, i requires 0 <= i < |words| => Given(words[i])) }
  function Rooms(words: seq<HostWord>): seq<HostParameter> { seq(|words|, i requires 0 <= i < |words| => Room(words[i])) }
  function Slices(words: seq<HostWord>): seq<HostParameter> { seq(|words|, i requires 0 <= i < |words| => Slice(words[i])) }

  /** What an entry can be asked for: each part given what it is over or answers, and nothing handed
      that no part takes. */
  predicate Fits(parts: seq<EntryPart>, over: seq<HostShape>, answered: Option<HostShape>) {
    && (over != [] ==> Over in parts || Columns in parts)
    && (answered.Some? ==> AnsweredPart in parts)
    && forall i :: 0 <= i < |parts| ==> PartGiven(parts[i], over, answered)
  }

  predicate PartGiven(part: EntryPart, over: seq<HostShape>, answered: Option<HostShape>) {
    && (part.AnsweredPart? ==> answered.Some?) && (part.Columns? ==> |over| == 1) && !part.Address?
  }

  /** What one part comes to: the words of what it stands for, in order. */
  function PartTakes(part: EntryPart, over: seq<HostShape>, answered: Option<HostShape>): seq<HostParameter>
    requires PartGiven(part, over, answered)
  {
    match part
    case WordPart(parameter) => [parameter]
    case Over => Givens(AllWords(over))
    case AnsweredPart => Rooms(Words(answered.value))
    case Columns => Slices(Words(over[0]))
  }

  predicate AllGiven(parts: seq<EntryPart>, over: seq<HostShape>, answered: Option<HostShape>) {
    forall i :: 0 <= i < |parts| ==> PartGiven(parts[i], over, answered)
  }

  /** The parameters of the parts, one part after another. */
  function PartsTake(parts: seq<EntryPart>, over: seq<HostShape>, answered: Option<HostShape>): seq<HostParameter>
    requires AllGiven(parts, over, answered)
  {
    if parts == [] then []
    else PartsTake(parts[..|parts| - 1], over, answered) + PartTakes(parts[|parts| - 1], over, answered)
  }

  /** The parameter list of one entry point: refused where shapes are handed that no part takes, where a part
      is for an answer there is none of, where a column is over anything but one shape, or where a part is an
      address; and otherwise the parameters of each part, one after another. */
  method Takes(parts: seq<EntryPart>, over: seq<HostShape>, answered: Option<HostShape>) returns (r: Option<seq<HostParameter>>)
    ensures r.Some? <==>
      && (over == [] || Over in parts || Columns in parts)
      && (AnsweredPart in parts <==> answered.Some?)
      && (Columns in parts ==> |over| == 1)
      && forall named :: Address(named) !in parts
    ensures r.Some? <==> Fits(parts, over, answered)
    ensures r.Some? ==> r.value == PartsTake(parts, over, answered)
  {
    if over != [] && Over !in parts && Columns !in parts { return None; }
    if answered.Some? && AnsweredPart !in parts { return None; }
    var takes: seq<HostParameter> := [];
    for n := 0 to |parts|
      invariant AllGiven(parts[..n], over, answered)
      invariant takes == PartsTake(parts[..n], over, answered)
    {
      var added := Taken(parts[n], over, answered);
      if added.None? { return None; }
      assert parts[..n + 1][..n] == parts[..n];
      takes := takes + added.value;
    }
    assert parts[..|parts|] == parts;
    return Some(takes);
  }

  method Taken(part: EntryPart, over: seq<HostShape>, answered: Option<HostShape>) returns (r: Option<seq<HostParameter>>)
    ensures r.Some? <==> PartGiven(part, over, answered)
    ensures r.Some? ==> r.value == PartTakes(part, over, answered)
  {
    match part
    case WordPart(parameter) => return Some([parameter]);
    case Over =>
      var words: seq<HostWord> := [];
      for i := 0 to |over|
        invariant words == AllWords(over[..i])
      {
        words := WordsInto(over[i], words);
        assert over[..i + 1][..i] == over[..i];
      }
      assert over[..|over|] == over;
      return Some(Givens(words));
    case AnsweredPart =>
      if answered.None? { return None; }
      var words := WordsInto(answered.value, []);
      return Some(Rooms(words));
    case Columns =>
      if |over| != 1 { return None; }
      var words := WordsInto(over[0], []);
      return Some(Slices(words));
    case Address(_) => return None;
  }

  lemma {:induction false} PartsTakeAppend(a: seq<EntryPart>, b: seq<EntryPart>, over: seq<HostShape>, answered: Option<HostShape>)
    requires AllGiven(a, over, answered) && AllGiven(b, over, answered)
    ensures AllGiven(a + b, over, answered)
    ensures PartsTake(a + b, over, answered) == PartsTake(a, over, answered) + PartsTake(b, over, answered)
    decreases |b|
  {
    if b == [] {
      assert a + b == a;
      assert PartsTake(a, over, answered) + [] == PartsTake(a, over, answered);
    } else {
      var last := |b| - 1;
      PartsTakeAppend(a, b[..last], over, answered);
      assert (a + b)[..|a + b| - 1] == a + b[..last] && (a + b)[|a + b| - 1] == b[last];
      Assoc(PartsTake(a, over, answered), PartsTake(b[..last], over, answered), PartTakes(b[last], over, answered));
    }
  }

  /** The words of a part stand where the parts before it end, wherever in the entry the part is. */
  lemma PartStands(parts: seq<EntryPart>, n: nat, over: seq<HostShape>, answered: Option<HostShape>)
    requires AllGiven(parts, over, answered) && n < |parts|
    ensures PartsTake(parts[..n], over, answered) + PartTakes(parts[n], over, answered) <= PartsTake(parts, over, answered)
  {
    var front, back := parts[..n + 1], parts[n + 1..];
    assert parts == front + back;
    PartsTakeAppend(front, back, over, answered);
    assert front[..n] == parts[..n];
  }

  /** Read back from the list by index: the i-th place of a part is the i-th word of its shapes, `Given`
      where the part is what is handed over, `Room` where it is the answer and `Slice` where a column. */
  lemma GivenAndRoomInOrder(parts: seq<EntryPart>, n: nat, over: seq<HostShape>, answered: Option<HostShape>, i: nat)
    requires AllGiven(parts, over, answered) && n < |parts| && i < |PartTakes(parts[n], over, answered)|
    ensures var takes, at := PartsTake(parts, over, answered), |PartsTake(parts[..n], over, answered)| + i;
      && at < |takes|
      && (parts[n] == Over ==> i < |AllWords(over)| && takes[at] == Given(AllWords(over)[i]))
      && (parts[n] == AnsweredPart ==> i < |Words(answered.value)| && takes[at] == Room(Words(answered.value)[i]))
      && (parts[n] == Columns ==> i < |Words(over[0])| && takes[at] == Slice(Words(over[0])[i]))
  {
    PartStands(parts, n, over, answered);
    PlacedAt(PartsTake(parts[..n], over, answered), PartTakes(parts[n], over, answered), PartsTake(parts, over, answered), i);
  }

  lemma PlacedAt<T>(a: seq<T>, b: seq<T>, whole: seq<T>, i: nat)
    requires a + b <= whole && i < |b|
    ensures |a| + i < |whole| && whole[|a| + i] == b[i]
  {
    assert (a + b)[|a| + i] == b[i];
  }
}
