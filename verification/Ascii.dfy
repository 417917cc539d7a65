/** ASCII lower case, and a fact about texts that other modules share. */
module Ascii {

  predicate IsUpper(c: char) { 'A' <= c <= 'Z' }

  function Lower(c: char): char {
    if IsUpper(c) then c + ('a' - 'A') else c
  }

  function LowerAll(s: string): (r: string)
    ensures |r| == |s|
    ensures forall k | 0 <= k < |s| :: r[k] == Lower(s[k])
  {
    if s == "" then "" else [Lower(s[0])] + LowerAll(s[1..])
  }

  /** The same text with its upper-case letters, and nothing else, in lower case. */
  ghost predicate InLowerCase(s: string, r: string) {
    && |r| == |s|
    && forall k | 0 <= k < |s| :: r[k] == if 'A' <= s[k] <= 'Z' then (s[k] as int + 32) as char else s[k]
  }

  lemma LowerAllIff(s: string, r: string)
    ensures LowerAll(s) == r <==> InLowerCase(s, r)
  {
    assert 'a' as int - 'A' as int == 32;
  }

  lemma Associate(a: string, b: string, c: string)
    ensures (a + b) + c == a + (b + c)
  {
  }
}
