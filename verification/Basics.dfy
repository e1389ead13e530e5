/** Small datatypes and string facts shared by the other modules. */
module Basics {
  datatype Option<+T> = None | Some(value: T)

  /** The character c does not occur in s. */
  predicate Free(s: string, c: char) {
    forall i :: 0 <= i < |s| ==> s[i] != c
  }

  /** The position of the first c in s, or |s|. */
  function FirstOf(s: string, c: char): nat {
    if s == [] || s[0] == c then 0 else 1 + FirstOf(s[1..], c)
  }

  lemma {:induction false} FirstOfSeparator(a: string, c: char, x: string)
    requires Free(a, c)
    ensures FirstOf(a + [c] + x, c) == |a|
  {
    var s := a + [c] + x;
    if a != [] {
      assert s[1..] == a[1..] + [c] + x;
      FirstOfSeparator(a[1..], c, x);
    }
  }

  lemma OnlySeparator(a: string, x: string, c: char, n: nat)
    requires Free(a, c) && Free(x, c) && n <= |a| + |x|
    ensures (a + [c] + x)[n] == c <==> n == |a|
  {
    if n > |a| {
      assert (a + [c] + x)[n] == x[n - |a| - 1];
    }
  }

  /** A string splits in one way only at its first separator. */
  lemma SplitAtFirst(a: string, x: string, b: string, y: string, c: char)
    requires Free(a, c) && Free(b, c) && a + [c] + x == b + [c] + y
    ensures a == b && x == y
  {
    FirstOfSeparator(a, c, x);
    FirstOfSeparator(b, c, y);
    var s := a + [c] + x;
    assert a == s[..|a|] && b == s[..|b|];
    assert x == s[|a| + 1..] && y == s[|b| + 1..];
  }
}
