/** A JSON Pointer read into its segments, as Go reads one and as PHP does (`pathOf` in
    bindings/go/runtime/words_unix.go, `path` in bindings/php/runtime/src/Session.php), against the
    escaping of sections 3 and 4 of RFC 6901. */
module JsonPointers {
  import opened Text

  // ----- as RFC 6901 writes one -----

  function Escaped(segment: string): string {
    if segment == [] then ""
    else
      (if segment[0] == '~' then "~0" else if segment[0] == '/' then "~1" else [segment[0]]) + Escaped(segment[1..])
  }

  function Pointer(segments: seq<string>): string {
    if segments == [] then "" else ("/" + Escaped(segments[0])) + Pointer(segments[1..])
  }

  // ----- as each host reads one -----

  /** One pass from the left, each of the two replaced where it is met. */
  function ReplacedOnce(s: string): string {
    if s == [] then ""
    else if |s| > 1 && s[0] == '~' && s[1] == '1' then "/" + ReplacedOnce(s[2..])
    else if |s| > 1 && s[0] == '~' && s[1] == '0' then "~" + ReplacedOnce(s[2..])
    else [s[0]] + ReplacedOnce(s[1..])
  }

  /** Every `~` and `mark` of a text as `into`. */
  function Replaced(s: string, mark: char, into: char): string {
    if s == [] then ""
    else if |s| > 1 && s[0] == '~' && s[1] == mark then [into] + Replaced(s[2..], mark, into)
    else [s[0]] + Replaced(s[1..], mark, into)
  }

  /** The one over the whole text, and then the other over what that left. */
  function ReplacedInTurn(s: string): string {
    Replaced(Replaced(s, '1', '/'), '0', '~')
  }

  function Split(s: string): (r: seq<string>)
    ensures r != []
  {
    if s == [] then [""]
    else
      var rest := Split(s[1..]);
      if s[0] == '/' then [""] + rest else [[s[0]] + rest[0]] + rest[1..]
  }

  function Each(segments: seq<string>): seq<string> {
    seq(|segments|, i requires 0 <= i < |segments| => ReplacedInTurn(segments[i]))
  }

  function PhpPath(pointer: string): seq<string> {
    if pointer == "" then [] else Each(Split(pointer[1..]))
  }

  /** What Go holds of a segment: an index where it is written as one, and otherwise a key. */
  datatype Step = Index(at: nat) | Key(name: string)

  const LARGEST: nat := 0x7FFF_FFFF_FFFF_FFFF

  predicate IsIndex(segment: string) {
    segment != [] && AllDigits(segment) && NumberIn(segment) <= LARGEST && Numeral(NumberIn(segment)) == segment
  }

  function StepOf(segment: string): Step {
    if IsIndex(segment) then Index(NumberIn(segment)) else Key(segment)
  }

  function StepText(step: Step): string {
    match step
    case Index(at) => Numeral(at)
    case Key(name) => name
  }

  function Steps(segments: seq<string>): seq<Step> {
    seq(|segments|, i requires 0 <= i < |segments| => StepOf(segments[i]))
  }

  method GoPath(pointer: string) returns (path: seq<Step>)
    ensures path == Steps(PhpPath(pointer))
  {
    path := [];
    if pointer == "" { return; }
    var split := Split(pointer[1..]);
    for i := 0 to |split|
      invariant path == Steps(Each(split[..i]))
    {
      var segment := ReplacedOnce(split[i]);
      OnceIsInTurn(split[i]);
      path := path + [StepOf(segment)];
      assert Each(split[..i + 1]) == Each(split[..i]) + [segment];
    }
    assert split[..|split|] == split;
  }

  // ----- the two are one -----

  lemma FirstStays(s: string)
    ensures var r := Replaced(s, '1', '/'); (r == [] <==> s == []) && (r != [] && r[0] == '0' ==> s[0] == '0')
  {
  }

  /** One pass is the two in turn, for every text. */
  lemma {:induction false} OnceIsInTurn(s: string)
    ensures ReplacedOnce(s) == ReplacedInTurn(s)
    decreases |s|
  {
    if s != [] {
      if |s| > 1 && s[0] == '~' && s[1] == '1' {
        var rest := Replaced(s[2..], '1', '/');
        OnceIsInTurn(s[2..]);
        assert (['/'] + rest)[1..] == rest;
      } else if |s| > 1 && s[0] == '~' && s[1] == '0' {
        var rest := Replaced(s[2..], '1', '/');
        OnceIsInTurn(s[2..]);
        assert s[1..][0] == '0' && s[1..][1..] == s[2..];
        assert Replaced(s[1..], '1', '/') == ['0'] + rest;
        assert (['~'] + (['0'] + rest))[2..] == rest;
      } else {
        var rest := Replaced(s[1..], '1', '/');
        OnceIsInTurn(s[1..]);
        FirstStays(s[1..]);
        assert ([s[0]] + rest)[1..] == rest;
      }
    }
  }

  // ----- and undo the escaping -----

  lemma {:induction false} EscapeUndone(segment: string)
    ensures ReplacedOnce(Escaped(segment)) == segment && '/' !in Escaped(segment)
    decreases |segment|
  {
    if segment != [] {
      var rest := Escaped(segment[1..]);
      EscapeUndone(segment[1..]);
      assert segment == [segment[0]] + segment[1..];
      if segment[0] == '~' {
        assert ("~0" + rest)[2..] == rest;
      } else if segment[0] == '/' {
        assert ("~1" + rest)[2..] == rest;
      } else {
        assert ([segment[0]] + rest)[1..] == rest;
      }
    }
  }

  lemma {:induction false} SplitFirst(a: string, rest: string)
    requires '/' !in a
    ensures Split(a) == [a]
    ensures Split(a + ("/" + rest)) == [a] + Split(rest)
    decreases |a|
  {
    var s := a + ("/" + rest);
    if a == [] {
      assert s == "/" + rest && s[1..] == rest;
    } else {
      SplitFirst(a[1..], rest);
      assert s[1..] == a[1..] + ("/" + rest) && s[0] == a[0] && a == [a[0]] + a[1..];
      assert ([a[1..]] + Split(rest))[1..] == Split(rest);
    }
  }

  function EscapedEach(segments: seq<string>): seq<string> {
    seq(|segments|, i requires 0 <= i < |segments| => Escaped(segments[i]))
  }

  lemma {:induction false} PointerSplits(segments: seq<string>)
    requires segments != []
    ensures Pointer(segments) != [] && Split(Pointer(segments)[1..]) == EscapedEach(segments)
    decreases |segments|
  {
    var first := Escaped(segments[0]);
    EscapeUndone(segments[0]);
    var rest := Pointer(segments[1..]);
    Assoc("/", first, rest);
    assert Pointer(segments)[1..] == first + rest;
    if |segments| == 1 {
      assert rest == "" && first + "" == first;
      SplitFirst(first, "");
      assert EscapedEach(segments) == [first];
    } else {
      PointerSplits(segments[1..]);
      assert rest == "/" + rest[1..];
      SplitFirst(first, rest[1..]);
      assert EscapedEach(segments) == [first] + EscapedEach(segments[1..]);
    }
  }

  /** A pointer to any segments, of any characters, is read back as those segments. */
  lemma SegmentsReadBack(segments: seq<string>)
    ensures PhpPath(Pointer(segments)) == segments
  {
    if segments != [] {
      PointerSplits(segments);
      forall i | 0 <= i < |segments| ensures ReplacedInTurn(Escaped(segments[i])) == segments[i] {
        EscapeUndone(segments[i]);
        OnceIsInTurn(Escaped(segments[i]));
      }
      assert Each(EscapedEach(segments)) == segments;
    }
  }

  /** Holding a segment as an index or a key loses nothing of it. */
  lemma StepsKeepSegments(segments: seq<string>, i: nat)
    requires i < |segments|
    ensures StepText(Steps(segments)[i]) == segments[i]
    ensures Steps(segments)[i].Index? <==> exists n: nat :: n <= LARGEST && segments[i] == Numeral(n)
  {
    var segment := segments[i];
    if n: nat :| n <= LARGEST && segment == Numeral(n) {
      NumberOfNumeral(n);
    }
  }
}
