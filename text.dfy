/** Small facts about strings, shared by the quote fix and the code-inclusion filter. */
module Text {

  /** `p` is a prefix of `s`. */
  predicate StartsWith(s: string, p: string)
  {
    |p| <= |s| && s[..|p|] == p
  }

  /** Number of positions of `s` at which `ch` occurs. */
  function CountChar(s: string, ch: char): (n: nat)
    ensures n <= |s|
    ensures ch !in s ==> n == 0
  {
    if s == [] then 0 else (if s[0] == ch then 1 else 0) + CountChar(s[1..], ch)
  }

  lemma {:induction false} CountCharAppend(a: string, b: string, ch: char)
    ensures CountChar(a + b, ch) == CountChar(a, ch) + CountChar(b, ch)
  {
    if a != [] {
      assert (a + b)[1..] == a[1..] + b;
      CountCharAppend(a[1..], b, ch);
    } else {
      assert a + b == b;
    }
  }
}
