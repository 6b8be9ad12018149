/** Finding characters in a text. */
module Strings {
  import opened Wrappers

  predicate StartsWith(s: string, prefix: string) {
    prefix <= s
  }

  /** Where a character first occurs. */
  function Find(s: string, c: char): (i: Option<nat>)
    ensures i.Some? ==> i.value < |s| && s[i.value] == c && c !in s[..i.value]
    ensures i.None? ==> c !in s
  {
    if s == [] then None
    else if s[0] == c then Some(0)
    else match Find(s[1..], c) case Some(i) => Some(i + 1) case None => None
  }

  lemma {:induction false} FindIs(a: string, c: char, rest: string)
    requires c !in a
    ensures Find(a + ([c] + rest), c) == Some(|a|) && Find(a, c) == None
  {
    var s := a + ([c] + rest);
    if a == [] {
      assert s == [c] + rest;
    } else {
      assert s[0] == a[0] && s[1..] == a[1..] + ([c] + rest);
      FindIs(a[1..], c, rest);
    }
  }

  /** Where a character last occurs. */
  function FindLast(s: string, c: char): (i: Option<nat>)
    ensures i.Some? ==> i.value < |s| && s[i.value] == c && c !in s[i.value + 1..]
    ensures i.None? ==> c !in s
  {
    if s == [] then None
    else if s[|s| - 1] == c then Some(|s| - 1)
    else FindLast(s[..|s| - 1], c)
  }
}
