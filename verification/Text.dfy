/** White space as Go's unicode.IsSpace knows it, and strings.TrimSpace. */
module Text {
  predicate IsSpace(c: char) {
    || '\t' <= c <= '\r' || c == ' '
    || c == '\U{85}' || c == '\U{A0}' || c == '\U{1680}' || '\U{2000}' <= c <= '\U{200A}'
    || c == '\U{2028}' || c == '\U{2029}' || c == '\U{202F}' || c == '\U{205F}' || c == '\U{3000}'
  }

  function TrimLeft(s: string): string {
    if s != "" && IsSpace(s[0]) then TrimLeft(s[1..]) else s
  }

  function TrimRight(s: string): string {
    if s != "" && IsSpace(s[|s| - 1]) then TrimRight(s[..|s| - 1]) else s
  }

  function TrimSpace(s: string): string {
    TrimRight(TrimLeft(s))
  }

  predicate SpaceFreeEnds(s: string) {
    s == "" || (!IsSpace(s[0]) && !IsSpace(s[|s| - 1]))
  }

  predicate AllSpaces(s: string) {
    forall i :: 0 <= i < |s| ==> IsSpace(s[i])
  }

  /** A text without outer white space keeps its value when surrounded by it. */
  lemma TrimPadded(left: string, s: string, right: string)
    requires SpaceFreeEnds(s) && AllSpaces(left) && AllSpaces(right)
    ensures TrimSpace(left + s + right) == s
  {
    if s == "" {
      assert left + s + right == left + right;
      TrimLeftAll(left + right);
    } else {
      TrimLeftPadded(left, s + right);
      assert left + s + right == left + (s + right);
      TrimRightPadded(s, right);
    }
  }

  lemma {:induction false} TrimLeftAll(s: string)
    requires AllSpaces(s)
    ensures TrimLeft(s) == ""
  {
    if s != "" { TrimLeftAll(s[1..]); }
  }

  lemma {:induction false} TrimLeftPadded(left: string, s: string)
    requires s != "" && !IsSpace(s[0]) && AllSpaces(left)
    ensures TrimLeft(left + s) == s
  {
    if left != "" {
      assert (left + s)[1..] == left[1..] + s;
      TrimLeftPadded(left[1..], s);
    } else {
      assert left + s == s;
    }
  }

  lemma {:induction false} TrimRightPadded(s: string, right: string)
    requires s != "" && !IsSpace(s[|s| - 1]) && AllSpaces(right)
    ensures TrimRight(s + right) == s
  {
    if right != "" {
      assert (s + right)[..|s + right| - 1] == s + right[..|right| - 1];
      TrimRightPadded(s, right[..|right| - 1]);
    } else {
      assert s + right == s;
    }
  }

  lemma AllSpacesJoin(a: string, b: string)
    requires AllSpaces(a) && AllSpaces(b)
    ensures AllSpaces(a + b)
  {
    forall i | 0 <= i < |a + b| ensures IsSpace((a + b)[i]) {
      if i < |a| {
        assert (a + b)[i] == a[i];
      } else {
        assert (a + b)[i] == b[i - |a|];
      }
    }
  }

  lemma {:induction false} TrimLeftShape(s: string) returns (n: nat)
    ensures n <= |s| && TrimLeft(s) == s[n..] && AllSpaces(s[..n])
    ensures n < |s| ==> !IsSpace(s[n])
  {
    if s != "" && IsSpace(s[0]) {
      var m := TrimLeftShape(s[1..]);
      n := m + 1;
      assert s[1..][m..] == s[n..];
      AllSpacesJoin([s[0]], s[1..][..m]);
      assert s[..n] == [s[0]] + s[1..][..m];
    } else {
      n := 0;
    }
  }

  lemma {:induction false} TrimRightShape(s: string) returns (n: nat)
    ensures n <= |s| && TrimRight(s) == s[..n] && AllSpaces(s[n..])
    ensures n > 0 ==> !IsSpace(s[n - 1])
  {
    if s != "" && IsSpace(s[|s| - 1]) {
      var init, c := s[..|s| - 1], s[|s| - 1];
      n := TrimRightShape(init);
      assert TrimRight(s) == TrimRight(init);
      assert init[..n] == s[..n];
      AllSpacesJoin(init[n..], [c]);
      assert s[n..] == init[n..] + [c];
      assert n > 0 ==> s[n - 1] == init[n - 1];
    } else {
      n := |s|;
    }
  }

  /** TrimSpace splits a text into outer white space and a part with none at its ends. */
  lemma TrimSpaceShape(s: string) returns (left: string, right: string)
    ensures s == left + TrimSpace(s) + right
    ensures SpaceFreeEnds(TrimSpace(s))
    ensures AllSpaces(left) && AllSpaces(right)
  {
    var n := TrimLeftShape(s);
    var t := s[n..];
    var m := TrimRightShape(t);
    left, right := s[..n], t[m..];
    assert t == t[..m] + t[m..];
    assert s == s[..n] + t;
  }

  /** A trimmed text written with a line end is read back unchanged. */
  lemma TrimmedLineReadsBack(s: string)
    ensures TrimSpace(TrimSpace(s) + "\n") == TrimSpace(s)
  {
    var left, right := TrimSpaceShape(s);
    assert "" + TrimSpace(s) + "\n" == TrimSpace(s) + "\n";
    TrimPadded("", TrimSpace(s), "\n");
  }
}
