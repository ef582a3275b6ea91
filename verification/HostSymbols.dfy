/** Spelling of every host symbol (`host_module` and each `host_*_symbol`; native/crates/abi/src/lib.rs)
    and a deterministic reader of the spelling, proved to be its inverse. */
module HostSymbols {
  import opened Options
  import opened Text
  import opened HostShapes

  const ABI_GENERATION: nat := 13

  // ----- names -----

  predicate IsAsciiAlphanumeric(c: char) {
    '0' <= c <= '9' || 'a' <= c <= 'z' || 'A' <= c <= 'Z'
  }

  predicate IsHexDigit(c: char) {
    '0' <= c <= '9' || 'a' <= c <= 'f'
  }

  function HexDigit(n: nat): (c: char)
    requires n < 16
    ensures IsHexDigit(c) && HexValue(c) == n
  {
    if n < 10 then ('0' as int + n) as char else ('a' as int + n - 10) as char
  }

  function HexValue(c: char): nat
    requires IsHexDigit(c)
  {
    if c <= '9' then c as int - '0' as int else c as int - 'a' as int + 10
  }

  predicate AllHex(s: string) {
    forall i :: 0 <= i < |s| ==> IsHexDigit(s[i])
  }

  function Hex(n: nat): (r: string)
    ensures r != [] && AllHex(r)
  {
    if n < 16 then [HexDigit(n)] else Hex(n / 16) + [HexDigit(n % 16)]
  }

  function HexIn(s: string): nat
    requires AllHex(s)
  {
    if s == [] then 0 else 16 * HexIn(s[..|s| - 1]) + HexValue(s[|s| - 1])
  }

  lemma {:induction false} HexOfHex(n: nat)
    ensures HexIn(Hex(n)) == n
  {
    if n < 16 {
      assert Hex(n)[..0] == [];
    } else {
      HexOfHex(n / 16);
      assert Hex(n)[..|Hex(n)| - 1] == Hex(n / 16);
    }
  }

  /** A character of a name: itself where it is an ASCII letter or digit, `_` doubled, and any other as
      its code point. */
  function Escaped(c: char): string {
    if IsAsciiAlphanumeric(c) then [c]
    else if c == '_' then "__"
    else "_u" + (Hex(c as int) + "_")
  }

  function Flat(parts: seq<string>): string {
    if parts == [] then "" else parts[0] + Flat(parts[1..])
  }

  lemma {:induction false} FlatNext(parts: seq<string>, last: string)
    ensures Flat(parts + [last]) == Flat(parts) + last
  {
    if parts == [] {
      assert (parts + [last])[1..] == [] && last + "" == last && "" + last == last;
    } else {
      FlatNext(parts[1..], last);
      assert (parts + [last])[0] == parts[0] && (parts + [last])[1..] == parts[1..] + [last];
      Assoc(parts[0], Flat(parts[1..]), last);
    }
  }

  function EachEscaped(name: string): seq<string> {
    seq(|name|, i requires 0 <= i < |name| => Escaped(name[i]))
  }

  function NameSpelt(name: string): string {
    Flat(EachEscaped(name))
  }

  lemma NameSpeltNext(name: string, i: nat)
    requires i < |name|
    ensures NameSpelt(name[..i + 1]) == NameSpelt(name[..i]) + Escaped(name[i])
  {
    assert EachEscaped(name[..i + 1]) == EachEscaped(name[..i]) + [Escaped(name[i])];
    FlatNext(EachEscaped(name[..i]), Escaped(name[i]));
  }

  lemma NameSpeltFirst(name: string)
    requires name != []
    ensures NameSpelt(name) == Escaped(name[0]) + NameSpelt(name[1..])
  {
    assert EachEscaped(name)[1..] == EachEscaped(name[1..]);
  }

  /** One name added to a symbol, character by character. */
  method HostName(before: string, name: string) returns (spelt: string)
    ensures spelt == before + NameSpelt(name)
  {
    spelt := before;
    for i := 0 to |name|
      invariant spelt == before + NameSpelt(name[..i])
    {
      var c := name[i];
      NameSpeltNext(name, i);
      Assoc(before, NameSpelt(name[..i]), Escaped(c));
      if IsAsciiAlphanumeric(c) {
        spelt := spelt + [c];
      } else if c == '_' {
        spelt := spelt + "__";
      } else {
        spelt := spelt + ("_u" + (Hex(c as int) + "_"));
      }
    }
    assert name[..|name|] == name;
  }

  // ----- modules -----

  /** A dotted name's segments: at least one, whatever the name. */
  function Segments(dotted: string): (r: seq<string>)
    ensures r != []
    decreases |dotted|
  {
    if dotted == [] then [""]
    else
      var rest := Segments(dotted[1..]);
      if dotted[0] == '.' then [""] + rest else [[dotted[0]] + rest[0]] + rest[1..]
  }

  function Dotted(segments: seq<string>): string
    requires segments != []
  {
    if |segments| == 1 then segments[0] else segments[0] + ("." + Dotted(segments[1..]))
  }

  lemma {:induction false} SegmentsAreDotted(dotted: string)
    ensures Dotted(Segments(dotted)) == dotted
    ensures forall i :: 0 <= i < |Segments(dotted)| ==> '.' !in Segments(dotted)[i]
    decreases |dotted|
  {
    if dotted != [] {
      var rest := Segments(dotted[1..]);
      SegmentsAreDotted(dotted[1..]);
      if dotted[0] == '.' {
        assert ([""] + rest)[1..] == rest;
        assert Dotted([""] + rest) == "" + ("." + Dotted(rest));
      } else {
        var whole := [[dotted[0]] + rest[0]] + rest[1..];
        assert whole[1..] == rest[1..];
        if |rest| > 1 { Assoc([dotted[0]], rest[0], "." + Dotted(rest[1..])); }
      }
      assert dotted == [dotted[0]] + dotted[1..];
    }
  }

  function ModulesSpelt(segments: seq<string>): string {
    if segments == [] then "" else ("_m_" + NameSpelt(segments[0])) + ModulesSpelt(segments[1..])
  }

  lemma {:induction false} ModulesSpeltNext(segments: seq<string>, i: nat)
    requires i < |segments|
    ensures ModulesSpelt(segments[..i + 1]) == ModulesSpelt(segments[..i]) + ("_m_" + NameSpelt(segments[i]))
    decreases |segments|
  {
    if i == 0 {
      assert segments[..1][1..] == [] && segments[..0] == [];
      assert ModulesSpelt([]) == "";
    } else {
      ModulesSpeltNext(segments[1..], i - 1);
      assert segments[..i + 1][1..] == segments[1..][..i] && segments[..i][1..] == segments[1..][..i - 1];
      Assoc("_m_" + NameSpelt(segments[0]), ModulesSpelt(segments[1..][..i - 1]), "_m_" + NameSpelt(segments[i]));
    }
  }

  function Prefix(): string {
    "souther" + Numeral(ABI_GENERATION)
  }

  function ModuleSpelt(dotted: string): string {
    Prefix() + ModulesSpelt(Segments(dotted))
  }

  method HostModule(dotted: string) returns (spelt: string)
    ensures spelt == ModuleSpelt(dotted)
  {
    spelt := "souther" + Numeral(ABI_GENERATION);
    var segments := Segments(dotted);
    for i := 0 to |segments|
      invariant spelt == Prefix() + ModulesSpelt(segments[..i])
    {
      ModulesSpeltNext(segments, i);
      Assoc(Prefix(), ModulesSpelt(segments[..i]), "_m_" + NameSpelt(segments[i]));
      Assoc(Prefix() + ModulesSpelt(segments[..i]), "_m_", NameSpelt(segments[i]));
      spelt := HostName(spelt + "_m_", segments[i]);
    }
    assert segments[..|segments|] == segments;
  }

  // ----- symbols -----

  datatype OfBehavior = Itself | Bind | Implement | Implementation | Example(at: nat) | Owed(at: nat) | AnswerCase
  datatype OfType = Construct | FieldNamed(field: string) | CaseAsked | Decode | DecodeHost | Encode
  datatype OfList = ListConstruct | ListLength | ListAt
  datatype OfFunction = FunctionCall | FunctionImplement | FunctionImplementation

  /** What a host reaches under a module. */
  datatype Reached =
    | Behavior(behavior: string, behaves: OfBehavior)
    | Published(value: string)
    | Declared(name: string, declares: OfType)
    | Listed(element: HostShape, lists: OfList)
    | Function(function_: HostShape, calls: OfFunction)

  function BehaviorSpelt(op: OfBehavior): string {
    match op
    case Itself => ""
    case Bind => "_bind"
    case Implement => "_implement"
    case Implementation => "_implementation"
    case Example(at) => "_example_" + Numeral(at)
    case Owed(at) => "_owed_" + Numeral(at)
    case AnswerCase => "_answer_case"
  }

  function TypeSpelt(op: OfType): string {
    match op
    case Construct => "_construct"
    case FieldNamed(field) => "_f_" + NameSpelt(field)
    case CaseAsked => "_case"
    case Decode => "_decode"
    case DecodeHost => "_decode_host"
    case Encode => "_encode"
  }

  function ListSpelt(op: OfList): string {
    match op
    case ListConstruct => "_construct"
    case ListLength => "_length"
    case ListAt => "_at"
  }

  function FunctionSpelt(op: OfFunction): string {
    match op
    case FunctionCall => "_call"
    case FunctionImplement => "_implement"
    case FunctionImplementation => "_implementation"
  }

  function ReachedSpelt(it: Reached): string {
    match it
    case Behavior(name, op) => "_b_" + (NameSpelt(name) + BehaviorSpelt(op))
    case Published(name) => "_v_" + NameSpelt(name)
    case Declared(name, op) => "_t_" + (NameSpelt(name) + TypeSpelt(op))
    case Listed(shape, op) => "_l_" + (Spelt(shape) + ListSpelt(op))
    case Function(shape, op) => "_fn_" + (Spelt(shape) + FunctionSpelt(op))
  }

  function Symbol(dotted: string, it: Reached): string {
    ModuleSpelt(dotted) + ReachedSpelt(it)
  }

  // ----- as they are written -----

  lemma {:induction false} PlainName(name: string)
    requires forall i :: 0 <= i < |name| ==> IsAsciiAlphanumeric(name[i])
    ensures NameSpelt(name) == name
    decreases |name|
  {
    if name != [] {
      NameSpeltFirst(name);
      PlainName(name[1..]);
      assert name == [name[0]] + name[1..];
    }
  }

  lemma {:induction false} SegmentsThen(first: string, rest: string)
    requires '.' !in first
    ensures Segments(first) == [first]
    ensures Segments(first + ("." + rest)) == [first] + Segments(rest)
    decreases |first|
  {
    var dotted := first + ("." + rest);
    if first == [] {
      assert dotted == "." + rest && dotted[1..] == rest;
    } else {
      SegmentsThen(first[1..], rest);
      assert dotted[1..] == first[1..] + ("." + rest) && dotted[0] == first[0] && first == [first[0]] + first[1..];
      assert ([first[1..]] + Segments(rest))[1..] == Segments(rest);
    }
  }

  /** A module of one segment and of two, of letters and digits. */
  lemma ModuleAsWritten(a: string, b: string)
    requires forall i :: 0 <= i < |a| ==> IsAsciiAlphanumeric(a[i])
    requires forall i :: 0 <= i < |b| ==> IsAsciiAlphanumeric(b[i])
    ensures ModuleSpelt(a) == ("souther" + "13") + ("_m_" + a)
    ensures ModuleSpelt(a + ("." + b)) == ("souther" + "13") + (("_m_" + a) + ("_m_" + b))
  {
    PlainName(a);
    PlainName(b);
    SegmentsThen(a, b);
    SegmentsThen(b, a);
    assert Numeral(13) == "13" by { assert Numeral(1) == "1"; }
    var one, two := [a], [a, b];
    assert one[1..] == [] && two[1..] == [b] && [b][1..] == [];
    assert ModulesSpelt([]) == "";
    assert ModulesSpelt(one) == ("_m_" + a) + "" && ModulesSpelt([b]) == ("_m_" + b) + "";
    assert ("_m_" + a) + "" == "_m_" + a && ("_m_" + b) + "" == "_m_" + b;
  }

  /** Each thing a host reaches, under its module: a kind, a name, and what is done with it. */
  lemma ReachedAsWritten(name: string, field: string, shape: HostShape, at: nat)
    ensures ReachedSpelt(Behavior(name, Itself)) == "_b_" + (NameSpelt(name) + "")
    ensures ReachedSpelt(Behavior(name, Bind)) == "_b_" + (NameSpelt(name) + "_bind")
    ensures ReachedSpelt(Behavior(name, Implement)) == "_b_" + (NameSpelt(name) + "_implement")
    ensures ReachedSpelt(Behavior(name, Implementation)) == "_b_" + (NameSpelt(name) + "_implementation")
    ensures ReachedSpelt(Behavior(name, Example(at))) == "_b_" + (NameSpelt(name) + ("_example_" + Numeral(at)))
    ensures ReachedSpelt(Behavior(name, Owed(at))) == "_b_" + (NameSpelt(name) + ("_owed_" + Numeral(at)))
    ensures ReachedSpelt(Behavior(name, AnswerCase)) == "_b_" + (NameSpelt(name) + "_answer_case")
    ensures ReachedSpelt(Published(name)) == "_v_" + NameSpelt(name)
    ensures ReachedSpelt(Declared(name, Construct)) == "_t_" + (NameSpelt(name) + "_construct")
    ensures ReachedSpelt(Declared(name, FieldNamed(field))) == "_t_" + (NameSpelt(name) + ("_f_" + NameSpelt(field)))
    ensures ReachedSpelt(Declared(name, CaseAsked)) == "_t_" + (NameSpelt(name) + "_case")
    ensures ReachedSpelt(Declared(name, Decode)) == "_t_" + (NameSpelt(name) + "_decode")
    ensures ReachedSpelt(Declared(name, DecodeHost)) == "_t_" + (NameSpelt(name) + "_decode_host")
    ensures ReachedSpelt(Declared(name, Encode)) == "_t_" + (NameSpelt(name) + "_encode")
    ensures ReachedSpelt(Listed(shape, ListConstruct)) == "_l_" + (Spelt(shape) + "_construct")
    ensures ReachedSpelt(Listed(shape, ListLength)) == "_l_" + (Spelt(shape) + "_length")
    ensures ReachedSpelt(Listed(shape, ListAt)) == "_l_" + (Spelt(shape) + "_at")
    ensures ReachedSpelt(Function(shape, FunctionCall)) == "_fn_" + (Spelt(shape) + "_call")
    ensures ReachedSpelt(Function(shape, FunctionImplement)) == "_fn_" + (Spelt(shape) + "_implement")
    ensures ReachedSpelt(Function(shape, FunctionImplementation)) == "_fn_" + (Spelt(shape) + "_implementation")
  {
    hide NameSpelt, Spelt, Numeral;
  }

  // ----- reading one back from the left -----

  predicate IsScalar(n: int) {
    0 <= n < 0xD800 || 0xE000 <= n < 0x11_0000
  }

  datatype NameRead = NameRead(name: string, rest: string)

  /** A name off the front: inside one, `_` is followed by `_` or `u`, and anything else ends it. */
  function ReadName(s: string): (r: NameRead)
    ensures |r.rest| <= |s|
    decreases |s|
  {
    if s == [] then NameRead([], [])
    else if s[0] != '_' then
      var r := ReadName(s[1..]);
      NameRead([s[0]] + r.name, r.rest)
    else if |s| > 1 && s[1] == '_' then
      var r := ReadName(s[2..]);
      NameRead(['_'] + r.name, r.rest)
    else if |s| > 1 && s[1] == 'u' then
      var token := NextToken(s[2..]);
      if token.rest != [] && AllHex(token.text) && IsScalar(HexIn(token.text)) then
        var r := ReadName(token.rest[1..]);
        NameRead([HexIn(token.text) as char] + r.name, r.rest)
      else NameRead([], s)
    else NameRead([], s)
  }

  /** What ends a name: nothing more, or a mark. */
  predicate MarkOrEnd(rest: string) {
    rest == [] || (|rest| > 1 && rest[0] == '_' && rest[1] != '_' && rest[1] != 'u')
  }

  lemma HexHasNoMark(s: string)
    requires AllHex(s)
    ensures '_' !in s
  {
  }

  lemma EscapedCode(hex: string, rest: string)
    requires AllHex(hex) && IsScalar(HexIn(hex)) && NextToken(hex + ("_" + rest)) == Token(hex, "_" + rest)
    ensures var r := ReadName(rest);
            ReadName("_u" + (hex + ("_" + rest))) == NameRead([HexIn(hex) as char] + r.name, r.rest)
  {
    After("_u", hex + ("_" + rest));
    After("_", rest);
  }

  lemma EscapeReadsBack(c: char, rest: string)
    requires !IsAsciiAlphanumeric(c) && c != '_'
    ensures var r := ReadName(rest); ReadName(Escaped(c) + rest) == NameRead([c] + r.name, r.rest)
  {
    var hex := Hex(c as int);
    HexOfHex(c as int);
    HexHasNoMark(hex);
    TokenEnds(hex, "_" + rest);
    Assoc("_u", hex + "_", rest);
    Assoc(hex, "_", rest);
    After("_u", hex + ("_" + rest));
    After("_", rest);
    EscapedCode(hex, rest);
  }

  lemma {:induction false} NameReadsBack(name: string, rest: string)
    requires MarkOrEnd(rest)
    ensures ReadName(NameSpelt(name) + rest) == NameRead(name, rest)
    decreases |name|
  {
    if name == [] {
      assert NameSpelt(name) + rest == rest;
    } else {
      var c, after := name[0], NameSpelt(name[1..]) + rest;
      NameReadsBack(name[1..], rest);
      NameSpeltFirst(name);
      Assoc(Escaped(c), NameSpelt(name[1..]), rest);
      assert name == [c] + name[1..];
      if IsAsciiAlphanumeric(c) {
        assert ([c] + after)[1..] == after;
      } else if c == '_' {
        assert ("__" + after)[2..] == after;
      } else {
        EscapeReadsBack(c, after);
      }
    }
  }

  datatype ModulesRead = ModulesRead(segments: seq<string>, rest: string)

  function ReadModules(s: string): (r: ModulesRead)
    decreases |s|
  {
    if "_m_" <= s then
      var name := ReadName(s[3..]);
      var r := ReadModules(name.rest);
      ModulesRead([name.name] + r.segments, r.rest)
    else ModulesRead([], s)
  }

  lemma {:induction false} ModulesReadBack(segments: seq<string>, rest: string)
    requires MarkOrEnd(rest) && !("_m_" <= rest)
    ensures ReadModules(ModulesSpelt(segments) + rest) == ModulesRead(segments, rest)
    decreases |segments|
  {
    if segments == [] {
      assert ModulesSpelt(segments) + rest == rest;
    } else {
      var name, after := NameSpelt(segments[0]), ModulesSpelt(segments[1..]) + rest;
      ModulesReadBack(segments[1..], rest);
      ModulesEnd(segments[1..], rest);
      NameReadsBack(segments[0], after);
      Assoc("_m_" + name, ModulesSpelt(segments[1..]), rest);
      Assoc("_m_", name, after);
      var s := "_m_" + (name + after);
      assert s[..3] == "_m_" && s[3..] == name + after;
      assert segments == [segments[0]] + segments[1..];
    }
  }

  lemma ModulesEnd(segments: seq<string>, rest: string)
    requires MarkOrEnd(rest)
    ensures MarkOrEnd(ModulesSpelt(segments) + rest)
  {
    if segments == [] { assert ModulesSpelt(segments) + rest == rest; }
  }

  function Number(s: string): Option<nat> {
    if s != [] && AllDigits(s) then Some(NumberIn(s)) else None
  }

  function ReadBehaviorOp(s: string): Option<OfBehavior> {
    if "_example_" <= s then (match Number(s[9..]) case Some(at) => Some(Example(at)) case None => None)
    else if "_owed_" <= s then (match Number(s[6..]) case Some(at) => Some(Owed(at)) case None => None)
    else if s == "" then Some(Itself)
    else if s == "_bind" then Some(Bind)
    else if s == "_implement" then Some(Implement)
    else if s == "_implementation" then Some(Implementation)
    else if s == "_answer_case" then Some(AnswerCase)
    else None
  }

  function ReadTypeOp(s: string): Option<OfType> {
    if "_f_" <= s then
      var field := ReadName(s[3..]);
      if field.rest == [] then Some(FieldNamed(field.name)) else None
    else if s == "_construct" then Some(Construct)
    else if s == "_case" then Some(CaseAsked)
    else if s == "_decode" then Some(Decode)
    else if s == "_decode_host" then Some(DecodeHost)
    else if s == "_encode" then Some(Encode)
    else None
  }

  function ReadListOp(s: string): Option<OfList> {
    if s == "_construct" then Some(ListConstruct)
    else if s == "_length" then Some(ListLength)
    else if s == "_at" then Some(ListAt)
    else None
  }

  function ReadFunctionOp(s: string): Option<OfFunction> {
    if s == "_call" then Some(FunctionCall)
    else if s == "_implement" then Some(FunctionImplement)
    else if s == "_implementation" then Some(FunctionImplementation)
    else None
  }

  function ReadReached(s: string): Option<Reached> {
    if "_b_" <= s then
      var name := ReadName(s[3..]);
      match ReadBehaviorOp(name.rest) case Some(op) => Some(Behavior(name.name, op)) case None => None
    else if "_v_" <= s then
      var name := ReadName(s[3..]);
      if name.rest == [] then Some(Published(name.name)) else None
    else if "_t_" <= s then
      var name := ReadName(s[3..]);
      match ReadTypeOp(name.rest) case Some(op) => Some(Declared(name.name, op)) case None => None
    else if "_l_" <= s then
      match ReadShape(s[3..])
      case ShapeRead(shape, rest) =>
        (match ReadListOp(rest) case Some(op) => Some(Listed(shape, op)) case None => None)
      case NoShape => None
    else if "_fn_" <= s then
      match ReadShape(s[4..])
      case ShapeRead(shape, rest) =>
        (match ReadFunctionOp(rest) case Some(op) => Some(Function(shape, op)) case None => None)
      case NoShape => None
    else None
  }

  datatype SymbolRead = NoSymbol | SymbolRead(dotted: string, reached: Reached)

  function ReadSymbol(s: string): SymbolRead {
    if !(Prefix() <= s) then NoSymbol
    else
      var modules := ReadModules(s[|Prefix()|..]);
      if modules.segments == [] then NoSymbol
      else
        match ReadReached(modules.rest)
        case Some(reached) => SymbolRead(Dotted(modules.segments), reached)
        case None => NoSymbol
  }

  // ----- every symbol reads back -----

  /** Two strings with different characters at one place, the first of them no prefix of the other. */
  lemma NoPrefix(mark: string, s: string, i: nat)
    requires i < |mark| && (i >= |s| || mark[i] != s[i])
    ensures !(mark <= s)
  {
  }

  lemma NumberedReadsBack(mark: string, at: nat)
    ensures var s := mark + Numeral(at); mark <= s && Number(s[|mark|..]) == Some(at)
  {
    var s := mark + Numeral(at);
    assert s[|mark|..] == Numeral(at);
    NumberOfNumeral(at);
  }

  lemma ExampleReadsBack(at: nat)
    ensures ReadBehaviorOp(BehaviorSpelt(Example(at))) == Some(Example(at)) && MarkOrEnd(BehaviorSpelt(Example(at)))
  {
    NumberedReadsBack("_example_", at);
    assert BehaviorSpelt(Example(at))[1] == 'e';
  }

  lemma OwedReadsBack(at: nat)
    ensures ReadBehaviorOp(BehaviorSpelt(Owed(at))) == Some(Owed(at)) && MarkOrEnd(BehaviorSpelt(Owed(at)))
  {
    NumberedReadsBack("_owed_", at);
    assert BehaviorSpelt(Owed(at))[1] == 'o';
    NoPrefix("_example_", BehaviorSpelt(Owed(at)), 1);
  }

  lemma BehaviorOpReadsBack(op: OfBehavior)
    ensures ReadBehaviorOp(BehaviorSpelt(op)) == Some(op) && MarkOrEnd(BehaviorSpelt(op))
  {
    match op
    case Example(at) => ExampleReadsBack(at);
    case Owed(at) => OwedReadsBack(at);
    case _ =>
      NoPrefix("_example_", BehaviorSpelt(op), 1);
      NoPrefix("_owed_", BehaviorSpelt(op), 1);
  }

  lemma FieldReadsBack(field: string)
    ensures ReadTypeOp(TypeSpelt(FieldNamed(field))) == Some(FieldNamed(field)) && MarkOrEnd(TypeSpelt(FieldNamed(field)))
  {
    assert NameSpelt(field) + "" == NameSpelt(field);
    NamedReadsBack("_f_", field, "");
    assert TypeSpelt(FieldNamed(field))[1] == 'f';
  }

  lemma TypeOpReadsBack(op: OfType)
    ensures ReadTypeOp(TypeSpelt(op)) == Some(op) && MarkOrEnd(TypeSpelt(op))
  {
    match op
    case FieldNamed(field) => FieldReadsBack(field);
    case _ => NoPrefix("_f_", TypeSpelt(op), 1);
  }

  lemma NamedReadsBack(mark: string, name: string, after: string)
    requires |mark| == 3 && MarkOrEnd(after)
    ensures var s := mark + (NameSpelt(name) + after); mark <= s && ReadName(s[3..]) == NameRead(name, after)
  {
    var s := mark + (NameSpelt(name) + after);
    assert s[..3] == mark && s[3..] == NameSpelt(name) + after;
    NameReadsBack(name, after);
  }

  lemma ShapedReadsBack(mark: string, shape: HostShape, after: string)
    requires Ends(after)
    ensures var s := mark + (Spelt(shape) + after); mark <= s && ReadShape(s[|mark|..]) == ShapeRead(shape, after)
  {
    var s := mark + (Spelt(shape) + after);
    assert s[..|mark|] == mark && s[|mark|..] == Spelt(shape) + after;
    ShapeReadsBack(shape, after);
  }

  lemma NoOtherMark(mark: string, after: string)
    requires |mark| > 1
    ensures var s := mark + after;
      && (mark[1] != 'b' ==> !("_b_" <= s)) && (mark[1] != 'v' ==> !("_v_" <= s))
      && (mark[1] != 't' ==> !("_t_" <= s)) && (mark[1] != 'l' ==> !("_l_" <= s))
  {
    var s := mark + after;
    assert s[1] == mark[1];
    if mark[1] != 'b' { NoPrefix("_b_", s, 1); }
    if mark[1] != 'v' { NoPrefix("_v_", s, 1); }
    if mark[1] != 't' { NoPrefix("_t_", s, 1); }
    if mark[1] != 'l' { NoPrefix("_l_", s, 1); }
  }

  lemma ReachedReadsBack(it: Reached)
    ensures ReadReached(ReachedSpelt(it)) == Some(it)
  {
    match it
    case Behavior(name, op) =>
      BehaviorOpReadsBack(op);
      NamedReadsBack("_b_", name, BehaviorSpelt(op));
    case Published(name) => PublishedReadsBack(name);
    case Declared(name, op) => DeclaredReadsBack(name, op);
    case Listed(shape, op) => ListedReadsBack(shape, op);
    case Function(shape, op) => FunctionSymbolReadsBack(shape, op);
  }

  lemma PublishedReadsBack(name: string)
    ensures ReadReached(ReachedSpelt(Published(name))) == Some(Published(name))
  {
    NamedReadsBack("_v_", name, "");
    assert NameSpelt(name) + "" == NameSpelt(name);
    NoOtherMark("_v_", NameSpelt(name));
  }

  lemma DeclaredReadsBack(name: string, op: OfType)
    ensures ReadReached(ReachedSpelt(Declared(name, op))) == Some(Declared(name, op))
  {
    TypeOpReadsBack(op);
    NamedReadsBack("_t_", name, TypeSpelt(op));
    NoOtherMark("_t_", NameSpelt(name) + TypeSpelt(op));
  }

  lemma ListOpReadsBack(op: OfList)
    ensures ReadListOp(ListSpelt(op)) == Some(op) && Ends(ListSpelt(op))
  {
  }

  lemma FunctionOpReadsBack(op: OfFunction)
    ensures ReadFunctionOp(FunctionSpelt(op)) == Some(op) && Ends(FunctionSpelt(op))
  {
  }

  lemma ListedReadsBack(shape: HostShape, op: OfList)
    ensures ReadReached(ReachedSpelt(Listed(shape, op))) == Some(Listed(shape, op))
  {
    ListOpReadsBack(op);
    ShapedReadsBack("_l_", shape, ListSpelt(op));
    NoOtherMark("_l_", Spelt(shape) + ListSpelt(op));
  }

  lemma FunctionSymbolReadsBack(shape: HostShape, op: OfFunction)
    ensures ReadReached(ReachedSpelt(Function(shape, op))) == Some(Function(shape, op))
  {
    FunctionOpReadsBack(op);
    ShapedReadsBack("_fn_", shape, FunctionSpelt(op));
    NoOtherMark("_fn_", Spelt(shape) + FunctionSpelt(op));
  }

  lemma ReachedIsMarked(it: Reached)
    ensures MarkOrEnd(ReachedSpelt(it)) && !("_m_" <= ReachedSpelt(it))
  {
    assert "_m_"[1] == 'm';
    var s := ReachedSpelt(it);
    assert s[0] == '_' && s[1] in {'b', 'v', 't', 'l', 'f'};
  }

  /** A reader from the left recovers what a symbol is of: the module, the name, the field, the row, the
      shape and the operation, whatever characters the names are made of. */
  lemma SymbolReadsBack(dotted: string, it: Reached)
    ensures ReadSymbol(Symbol(dotted, it)) == SymbolRead(dotted, it)
  {
    var segments, after := Segments(dotted), ReachedSpelt(it);
    var s := Symbol(dotted, it);
    ReachedIsMarked(it);
    ModulesReadBack(segments, after);
    ReachedReadsBack(it);
    SegmentsAreDotted(dotted);
    Assoc(Prefix(), ModulesSpelt(segments), after);
    assert s[..|Prefix()|] == Prefix() && s[|Prefix()|..] == ModulesSpelt(segments) + after;
  }

  /** So two things never share a symbol. */
  lemma SymbolsAreApart(a: string, x: Reached, b: string, y: Reached)
    ensures Symbol(a, x) == Symbol(b, y) <==> a == b && x == y
  {
    SymbolReadsBack(a, x);
    SymbolReadsBack(b, y);
  }

  // ----- and is a C identifier -----

  predicate InIdentifier(c: char) {
    IsAsciiAlphanumeric(c) || c == '_'
  }

  predicate AllInIdentifier(s: string) {
    forall i :: 0 <= i < |s| ==> InIdentifier(s[i])
  }

  lemma {:induction false} NameIsIdentifier(name: string)
    ensures AllInIdentifier(NameSpelt(name))
    decreases |name|
  {
    if name != [] {
      NameIsIdentifier(name[1..]);
      NameSpeltFirst(name);
      BothInIdentifier(Escaped(name[0]), NameSpelt(name[1..]));
    }
  }

  lemma {:induction false} ModulesAreIdentifier(segments: seq<string>)
    ensures AllInIdentifier(ModulesSpelt(segments))
    decreases |segments|
  {
    if segments != [] {
      NameIsIdentifier(segments[0]);
      ModulesAreIdentifier(segments[1..]);
      BothInIdentifier("_m_", NameSpelt(segments[0]));
      BothInIdentifier("_m_" + NameSpelt(segments[0]), ModulesSpelt(segments[1..]));
    }
  }

  lemma {:induction false} ShapeIsIdentifier(shape: HostShape)
    ensures AllInIdentifier(Spelt(shape))
    decreases shape, 1
  {
    match shape
    case Leaf(_) =>
    case OptionOf(held) => MarkedIsIdentifier(shape, "o", held);
    case Product(members) =>
      ShapesAreIdentifier(shape, members);
      BothInIdentifier("t" + Numeral(|members|), AllSpelt(members));
    case ListOf(element) => MarkedIsIdentifier(shape, "l", element);
    case FunctionOf(takes, answers) =>
      ShapesAreIdentifier(shape, takes);
      ShapeIsIdentifier(answers);
      BothInIdentifier("_", Spelt(answers));
      BothInIdentifier(AllSpelt(takes), "_" + Spelt(answers));
      BothInIdentifier("f" + Numeral(|takes|), AllSpelt(takes) + ("_" + Spelt(answers)));
  }

  lemma {:induction false} MarkedIsIdentifier(parent: HostShape, mark: string, inner: HostShape)
    requires inner < parent && AllInIdentifier(mark)
    ensures AllInIdentifier(mark + ("_" + Spelt(inner)))
    decreases inner, 2
  {
    ShapeIsIdentifier(inner);
    BothInIdentifier("_", Spelt(inner));
    BothInIdentifier(mark, "_" + Spelt(inner));
  }

  lemma {:induction false} ShapesAreIdentifier(parent: HostShape, shapes: seq<HostShape>)
    requires forall i :: 0 <= i < |shapes| ==> shapes[i] < parent
    ensures AllInIdentifier(AllSpelt(shapes))
    decreases parent, 0, |shapes|
  {
    if shapes != [] {
      ShapeIsIdentifier(shapes[0]);
      ShapesAreIdentifier(parent, shapes[1..]);
      BothInIdentifier("_", Spelt(shapes[0]));
      BothInIdentifier("_" + Spelt(shapes[0]), AllSpelt(shapes[1..]));
    }
  }

  lemma BothInIdentifier(a: string, b: string)
    requires AllInIdentifier(a) && AllInIdentifier(b)
    ensures AllInIdentifier(a + b)
  {
  }

  lemma OpsAreIdentifier(it: Reached)
    ensures it.Behavior? ==> AllInIdentifier(BehaviorSpelt(it.behaves))
    ensures it.Declared? ==> AllInIdentifier(TypeSpelt(it.declares))
    ensures it.Listed? ==> AllInIdentifier(ListSpelt(it.lists))
    ensures it.Function? ==> AllInIdentifier(FunctionSpelt(it.calls))
  {
    if it.Behavior? && it.behaves.Example? { BothInIdentifier("_example_", Numeral(it.behaves.at)); }
    if it.Behavior? && it.behaves.Owed? { BothInIdentifier("_owed_", Numeral(it.behaves.at)); }
    if it.Declared? && it.declares.FieldNamed? {
      NameIsIdentifier(it.declares.field);
      BothInIdentifier("_f_", NameSpelt(it.declares.field));
    }
  }

  lemma ReachedIsIdentifier(it: Reached)
    ensures AllInIdentifier(ReachedSpelt(it))
  {
    OpsAreIdentifier(it);
    match it
    case Behavior(name, op) =>
      NameIsIdentifier(name);
      BothInIdentifier(NameSpelt(name), BehaviorSpelt(op));
      BothInIdentifier("_b_", NameSpelt(name) + BehaviorSpelt(op));
    case Published(name) =>
      NameIsIdentifier(name);
      BothInIdentifier("_v_", NameSpelt(name));
    case Declared(name, op) =>
      NameIsIdentifier(name);
      BothInIdentifier(NameSpelt(name), TypeSpelt(op));
      BothInIdentifier("_t_", NameSpelt(name) + TypeSpelt(op));
    case Listed(shape, op) =>
      ShapeIsIdentifier(shape);
      BothInIdentifier(Spelt(shape), ListSpelt(op));
      BothInIdentifier("_l_", Spelt(shape) + ListSpelt(op));
    case Function(shape, op) =>
      ShapeIsIdentifier(shape);
      BothInIdentifier(Spelt(shape), FunctionSpelt(op));
      BothInIdentifier("_fn_", Spelt(shape) + FunctionSpelt(op));
  }

  /** Every symbol a host reaches is a C identifier, and so none of those an object reaches another by,
      each of which carries a `.` or a `$`. */
  lemma SymbolIsIdentifier(dotted: string, it: Reached)
    ensures var s := Symbol(dotted, it);
      AllInIdentifier(s) && s != [] && 'a' <= s[0] <= 'z' && '.' !in s && '$' !in s
  {
    ModulesAreIdentifier(Segments(dotted));
    ReachedIsIdentifier(it);
    var s := Symbol(dotted, it);
    assert s[0] == Prefix()[0];
  }

  /** Whatever else is named by a symbol: what one object of this compiler's reaches another by, the
      boundary of an entry, the tokens of types and of cases the language gives, and all the runtime is
      called by, its own generation among it. */
  datatype Between =
    | BehaviorEntry(behavior: string)
    | HeldCopy(reached: string)
    | Home(value: string)
    | ValueEntry(value: string)
    | Constructor(name: string)
    | CheckedConstructor(name: string)
    | Reader(name: string)
    | Row(behavior: string, at: nat)
    | Boundary(behavior: string)
    | RowBoundary(behavior: string, at: nat)
    | TypeToken(name: string)
    | CaseToken(name: string)
    | RuntimeGeneration(generation: nat)
    | RuntimeOperation(operation: string)

  function BetweenSpelt(dotted: string, it: Between): string {
    var entry := Prefix() + "." + dotted;
    match it
    case BehaviorEntry(behavior) => entry + "." + behavior
    case HeldCopy(reached) => entry + "$" + reached
    case Home(value) => entry + "$home$" + value
    case ValueEntry(value) => entry + "$value$" + value
    case Constructor(name) => entry + "$construct$" + name
    case CheckedConstructor(name) => entry + "$checked$" + name
    case Reader(name) => entry + "$read$" + name
    case Row(behavior, at) => entry + "." + behavior + "$example$" + Numeral(at)
    case Boundary(behavior) => entry + "." + behavior + "$boundary"
    case RowBoundary(behavior, at) => entry + "." + behavior + "$example$" + Numeral(at) + "$boundary"
    case TypeToken(name) => "souther$type$" + dotted + "$" + name
    case CaseToken(name) => "souther$case$" + name
    case RuntimeGeneration(generation) => "souther_runtime_abi_" + Numeral(generation)
    case RuntimeOperation(operation) => "souther_" + operation
  }

  /** No host symbol is one of those, under whatever names. */
  lemma HostIsNotBetween(dotted: string, it: Reached, other: string, between: Between)
    ensures Symbol(dotted, it) != BetweenSpelt(other, between)
  {
    SymbolIsIdentifier(dotted, it);
    var s, t := Symbol(dotted, it), BetweenSpelt(other, between);
    if between.TypeToken? || between.CaseToken? {
      assert t[7] == '$';
    } else if between.RuntimeGeneration? || between.RuntimeOperation? {
      assert t[7] == '_';
      assert Prefix()[7] == '1' && s[7] == Prefix()[7];
    } else {
      assert t[|Prefix()|] == '.';
    }
  }

  /** Among those themselves the boundary of a behavior is not apart: a helper called `boundary`, held by
      a module of the behavior's own dotted name, is spelt the same. */
  lemma BoundaryMeetsHeldCopy(dotted: string, behavior: string)
    ensures BetweenSpelt(dotted, Boundary(behavior)) == BetweenSpelt(dotted + "." + behavior, HeldCopy("boundary"))
  {
    var entry := Prefix() + "." + dotted + "." + behavior;
    assert entry == Prefix() + "." + (dotted + "." + behavior);
    assert entry + "$boundary" == entry + "$" + "boundary";
  }
}
