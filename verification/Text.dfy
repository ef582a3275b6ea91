/** Text, and numbers written in it. */
module Text {
  lemma Assoc<T>(a: seq<T>, b: seq<T>, c: seq<T>)
    ensures a + b + c == a + (b + c)
  {
  }

  lemma After<T>(mark: seq<T>, rest: seq<T>)
    ensures mark <= mark + rest && (mark + rest)[|mark|..] == rest
  {
  }

  predicate IsDigit(c: char) { '0' <= c <= '9' }

  function Digit(n: nat): (c: char)
    requires n < 10
    ensures IsDigit(c) && (c as int) - ('0' as int) == n
  {
    ('0' as int + n) as char
  }

  function Numeral(n: nat): (r: string)
    ensures r != [] && forall i :: 0 <= i < |r| ==> IsDigit(r[i])
  {
    if n < 10 then [Digit(n)] else Numeral(n / 10) + [Digit(n % 10)]
  }

  predicate AllDigits(s: string) {
    forall i :: 0 <= i < |s| ==> IsDigit(s[i])
  }

  function NumberIn(s: string): nat
    requires AllDigits(s)
  {
    if s == [] then 0
    else
      var last := |s| - 1;
      10 * NumberIn(s[..last]) + (s[last] as int - '0' as int)
  }

  lemma {:induction false} NumberOfNumeral(n: nat)
    ensures NumberIn(Numeral(n)) == n
  {
    if n < 10 {
      assert Numeral(n)[..0] == [];
    } else {
      NumberOfNumeral(n / 10);
      assert Numeral(n)[..|Numeral(n)| - 1] == Numeral(n / 10);
    }
  }
}
