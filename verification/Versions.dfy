/**
 The launcher's version order: dotted segments, each compared by its leading integer and then by
 the rest of its text.
 */
module Versions {
  import opened Basics

  const MAX_INT := 0x7fff_ffff_ffff_ffff

  predicate IsDigit(c: char) {
    '0' <= c <= '9'
  }

  /** strings.Compare. */
  function CompareText(a: string, b: string): int {
    if a == "" && b == "" then 0
    else if a == "" then -1
    else if b == "" then 1
    else if a[0] < b[0] then -1
    else if a[0] > b[0] then 1
    else CompareText(a[1..], b[1..])
  }

  function DigitCount(s: string): (n: nat)
    ensures n <= |s|
    ensures forall i :: 0 <= i < n ==> IsDigit(s[i])
    ensures n < |s| ==> !IsDigit(s[n])
  {
    if s == "" || !IsDigit(s[0]) then 0 else 1 + DigitCount(s[1..])
  }

  /** The number a string of digits denotes. */
  function Decimal(s: string): nat
    requires forall i :: 0 <= i < |s| ==> IsDigit(s[i])
  {
    if s == "" then 0
    else
      assert IsDigit(s[|s| - 1]);
      Decimal(s[..|s| - 1]) * 10 + (s[|s| - 1] as int - '0' as int)
  }

  /** The value strconv.Atoi returns next to its ignored error: 0 for "", the largest int when out of range. */
  function Atoi(s: string): nat
    requires forall i :: 0 <= i < |s| ==> IsDigit(s[i])
  {
    if Decimal(s) > MAX_INT then MAX_INT else Decimal(s)
  }

  datatype Segment = Segment(number: nat, rest: string)

  /** What a segment is compared by. */
  function Parse(s: string): Segment {
    Segment(Atoi(s[..DigitCount(s)]), s[DigitCount(s)..])
  }

  function CompareSegments(a: Segment, b: Segment): int {
    if a.number < b.number then -1
    else if a.number > b.number then 1
    else CompareText(a.rest, b.rest)
  }

  function TrimV(s: string): string {
    if s != "" && s[0] == 'v' then s[1..] else s
  }

  /** strings.Split at the dots. */
  function Split(s: string): (r: seq<string>)
    ensures r != []
  {
    if s == "" then [""]
    else
      var r := Split(s[1..]);
      if s[0] == '.' then [""] + r else [[s[0]] + r[0]] + r[1..]
  }

  function Segments(v: string): seq<string> {
    Split(TrimV(v))
  }

  /** The segment at position i; a missing one is empty. */
  function At(segments: seq<string>, i: nat): Segment {
    Parse(if i < |segments| then segments[i] else "")
  }

  function CompareFrom(a: seq<string>, b: seq<string>, i: nat): int
    decreases |a| + |b| - i
  {
    if i >= |a| && i >= |b| then 0
    else
      var c := CompareSegments(At(a, i), At(b, i));
      if c != 0 then c else CompareFrom(a, b, i + 1)
  }

  function Compare(a: string, b: string): int {
    CompareFrom(Segments(a), Segments(b), 0)
  }

  // ---- splitting ----

  function JoinDots(r: seq<string>): string
    requires r != []
  {
    if |r| == 1 then r[0] else r[0] + "." + JoinDots(r[1..])
  }

  /** Split loses nothing and leaves no dot inside a segment. */
  lemma {:induction false} SplitRoundTrip(s: string)
    ensures JoinDots(Split(s)) == s
    ensures forall i :: 0 <= i < |Split(s)| ==> Free(Split(s)[i], '.')
  {
    if s != "" {
      var r := Split(s[1..]);
      SplitRoundTrip(s[1..]);
      if s[0] == '.' {
        assert ([""] + r)[1..] == r;
        assert "" + "." + s[1..] == s;
      } else {
        var t := [[s[0]] + r[0]] + r[1..];
        assert t[1..] == r[1..];
        assert s == [s[0]] + s[1..];
        if |r| > 1 {
          assert [s[0]] + (r[0] + "." + JoinDots(r[1..])) == ([s[0]] + r[0]) + "." + JoinDots(r[1..]);
        }
      }
    }
  }

  lemma {:induction false} SplitAppendZero(s: string)
    ensures Split(s + ".0") == Split(s) + ["0"]
  {
    if s == "" {
      assert ("" + ".0")[1..] == "0" && "0"[1..] == "";
      assert Split("") == [""] && ['0'] + "" == "0";
      assert [""][1..] == [];
      assert Split("0") == ["0"];
    } else {
      assert (s + ".0")[1..] == s[1..] + ".0";
      SplitAppendZero(s[1..]);
    }
  }

  // ---- text and segments are totally ordered ----

  lemma {:induction false} TextOrder(a: string, b: string)
    ensures CompareText(a, b) == -CompareText(b, a)
    ensures CompareText(a, b) == 0 <==> a == b
    ensures -1 <= CompareText(a, b) <= 1
  {
    if a != "" && b != "" {
      TextOrder(a[1..], b[1..]);
      assert a == [a[0]] + a[1..] && b == [b[0]] + b[1..];
    }
  }

  lemma {:induction false} TextTransitive(a: string, b: string, c: string)
    requires CompareText(a, b) < 0 && CompareText(b, c) < 0
    ensures CompareText(a, c) < 0
  {
    if a != "" && b != "" && c != "" {
      if a[0] == b[0] == c[0] {
        TextTransitive(a[1..], b[1..], c[1..]);
      }
    }
  }

  lemma SegmentOrder(a: Segment, b: Segment)
    ensures CompareSegments(a, b) == -CompareSegments(b, a)
    ensures CompareSegments(a, b) == 0 <==> a == b
    ensures -1 <= CompareSegments(a, b) <= 1
  {
    TextOrder(a.rest, b.rest);
  }

  lemma SegmentTransitive(a: Segment, b: Segment, c: Segment)
    requires CompareSegments(a, b) < 0 && CompareSegments(b, c) < 0
    ensures CompareSegments(a, c) < 0
  {
    if a.number == b.number == c.number {
      TextTransitive(a.rest, b.rest, c.rest);
    }
  }

  // ---- the version order ----

  /** The segments agree below position i. */
  ghost predicate AgreeBelow(a: seq<string>, b: seq<string>, i: nat) {
    forall j: nat :: j < i ==> At(a, j) == At(b, j)
  }

  /** The result is that of the first position where the segments differ. */
  ghost predicate DecidedAt(a: seq<string>, b: seq<string>, i: nat, c: int) {
    AgreeBelow(a, b, i) && At(a, i) != At(b, i) && c == CompareSegments(At(a, i), At(b, i))
  }

  lemma {:induction false} CompareFromDecides(a: seq<string>, b: seq<string>, i: nat)
    requires AgreeBelow(a, b, i)
    ensures var c := CompareFrom(a, b, i);
      if c == 0 then forall j: nat :: At(a, j) == At(b, j)
      else exists k: nat :: DecidedAt(a, b, k, c)
    decreases |a| + |b| - i
  {
    SegmentOrder(At(a, i), At(b, i));
    if i >= |a| && i >= |b| {
      forall j: nat ensures At(a, j) == At(b, j) {
        if j < i { assert AgreeBelow(a, b, i); }
      }
    } else if At(a, i) == At(b, i) {
      CompareFromDecides(a, b, i + 1);
    } else {
      assert DecidedAt(a, b, i, CompareFrom(a, b, i));
    }
  }

  lemma {:induction false} CompareDecides(a: string, b: string)
    ensures Compare(a, b) == 0 <==> forall j: nat :: At(Segments(a), j) == At(Segments(b), j)
    ensures Compare(a, b) != 0 ==> exists k: nat :: DecidedAt(Segments(a), Segments(b), k, Compare(a, b))
  {
    CompareFromDecides(Segments(a), Segments(b), 0);
    if Compare(a, b) != 0 {
      var k: nat :| DecidedAt(Segments(a), Segments(b), k, Compare(a, b));
      assert At(Segments(a), k) != At(Segments(b), k);
    }
  }

  lemma DecidedOnce(a: seq<string>, b: seq<string>, k: nat, c: int, k': nat, c': int)
    requires DecidedAt(a, b, k, c) && DecidedAt(a, b, k', c')
    ensures k == k' && c == c'
  {
  }

  lemma DecidedMeansCompare(a: string, b: string, k: nat, c: int)
    requires DecidedAt(Segments(a), Segments(b), k, c)
    ensures Compare(a, b) == c
  {
    CompareDecides(a, b);
    assert At(Segments(a), k) != At(Segments(b), k);
    var k': nat :| DecidedAt(Segments(a), Segments(b), k', Compare(a, b));
    DecidedOnce(Segments(a), Segments(b), k, c, k', Compare(a, b));
  }

  /** Comparing the other way round flips the sign; the result is -1, 0 or 1, and 0 exactly when
      the segments agree at every position, missing ones counting as empty. */
  lemma {:induction false} CompareIsAntisymmetric(a: string, b: string)
    ensures Compare(a, b) == -Compare(b, a)
    ensures -1 <= Compare(a, b) <= 1
    ensures Compare(a, b) == 0 <==> forall j: nat :: At(Segments(a), j) == At(Segments(b), j)
  {
    CompareDecides(a, b);
    CompareDecides(b, a);
    if Compare(a, b) != 0 {
      var k: nat :| DecidedAt(Segments(a), Segments(b), k, Compare(a, b));
      SegmentOrder(At(Segments(a), k), At(Segments(b), k));
      assert DecidedAt(Segments(b), Segments(a), k, -Compare(a, b));
      DecidedMeansCompare(b, a, k, -Compare(a, b));
    }
  }

  /** Versions that compare equal are interchangeable. */
  lemma EqualIsInterchangeable(a: string, b: string, c: string)
    requires Compare(a, b) == 0
    ensures Compare(a, c) == Compare(b, c)
  {
    CompareDecides(a, b);
    CompareDecides(a, c);
    CompareDecides(b, c);
    if Compare(a, c) != 0 {
      var k: nat :| DecidedAt(Segments(a), Segments(c), k, Compare(a, c));
      assert DecidedAt(Segments(b), Segments(c), k, Compare(a, c));
      DecidedMeansCompare(b, c, k, Compare(a, c));
    }
  }

  /** The version order is transitive, and strictly so when either step is strict. */
  lemma {:induction false} CompareIsTransitive(a: string, b: string, c: string)
    requires Compare(a, b) <= 0 && Compare(b, c) <= 0
    ensures Compare(a, c) <= 0
    ensures Compare(a, b) < 0 || Compare(b, c) < 0 ==> Compare(a, c) < 0
  {
    if Compare(a, b) == 0 {
      EqualIsInterchangeable(a, b, c);
    } else if Compare(b, c) == 0 {
      CompareIsAntisymmetric(b, c);
      CompareIsAntisymmetric(a, b);
      CompareIsAntisymmetric(a, c);
      EqualIsInterchangeable(c, b, a);
    } else {
      StrictTransitive(a, b, c);
    }
  }

  lemma StrictTransitive(a: string, b: string, c: string)
    requires Compare(a, b) < 0 && Compare(b, c) < 0
    ensures Compare(a, c) < 0
  {
    var (x, y, z) := (Segments(a), Segments(b), Segments(c));
    CompareDecides(a, b);
    CompareDecides(b, c);
    var k: nat :| DecidedAt(x, y, k, Compare(a, b));
    var m: nat :| DecidedAt(y, z, m, Compare(b, c));
    var first := if k < m then k else m;
    assert AgreeBelow(x, z, first);
    if k == m {
      SegmentTransitive(At(x, k), At(y, k), At(z, k));
    }
    SegmentOrder(At(x, first), At(z, first));
    assert DecidedAt(x, z, first, CompareSegments(At(x, first), At(z, first)));
    DecidedMeansCompare(a, c, first, CompareSegments(At(x, first), At(z, first)));
  }

  lemma SegmentsAppendZero(v: string)
    ensures Segments(v + ".0") == Segments(v) + ["0"]
  {
    assert TrimV(v + ".0") == TrimV(v) + ".0";
    SplitAppendZero(TrimV(v));
  }

  lemma ZeroIsEmpty()
    ensures Parse("0") == Parse("")
  {
    var zero := "0";
    assert DigitCount(zero) == 1 && zero[..1] == zero && zero[1..] == "";
    assert zero[..0] == "" && Decimal(zero) == 0;
  }

  lemma AtAppend(segments: seq<string>, s: string, j: nat)
    requires Parse(s) == Parse("")
    ensures At(segments + [s], j) == At(segments, j)
  {
  }

  /** A trailing ".0" makes no difference. */
  lemma TrailingZeroIsEqual(v: string)
    ensures Compare(v, v + ".0") == 0
  {
    SegmentsAppendZero(v);
    ZeroIsEmpty();
    forall j: nat ensures At(Segments(v), j) == At(Segments(v + ".0"), j) {
      AtAppend(Segments(v), "0", j);
    }
    CompareDecides(v, v + ".0");
  }

  /** Text a comes before b: b continues it, or at the first difference a has the smaller character. */
  ghost predicate TextBefore(a: string, b: string, k: nat) {
    && k <= |a| && k < |b| && a[..k] == b[..k]
    && (k == |a| || a[k] < b[k])
  }

  lemma {:induction false} TextCompareIff(a: string, b: string)
    ensures CompareText(a, b) < 0 <==> exists k: nat :: TextBefore(a, b, k)
  {
    if a == "" && b != "" {
      assert TextBefore(a, b, 0);
    } else if a != "" && b != "" {
      if a[0] < b[0] {
        assert TextBefore(a, b, 0);
      } else if a[0] == b[0] {
        TextCompareIff(a[1..], b[1..]);
        TextBeforeTail(a, b);
      }
    }
  }

  lemma TextBeforeTail(a: string, b: string)
    requires a != "" && b != "" && a[0] == b[0]
    ensures (exists k: nat :: TextBefore(a[1..], b[1..], k)) <==> exists k: nat :: TextBefore(a, b, k)
  {
    if k: nat :| TextBefore(a[1..], b[1..], k) {
      assert a[..k + 1] == [a[0]] + a[1..][..k] && b[..k + 1] == [b[0]] + b[1..][..k];
      assert TextBefore(a, b, k + 1);
    }
    if k: nat :| TextBefore(a, b, k) {
      assert k > 0;
      assert a[1..][..k - 1] == a[..k][1..] && b[1..][..k - 1] == b[..k][1..];
      assert TextBefore(a[1..], b[1..], k - 1);
    }
  }

  /** Segment a comes before b: by its number, or by its text when the numbers agree. */
  ghost predicate SegmentBefore(a: Segment, b: Segment) {
    a.number < b.number || (a.number == b.number && exists k: nat :: TextBefore(a.rest, b.rest, k))
  }

  /** Version a is less than b exactly when at the first position where their segments differ a's comes
      before b's. */
  lemma LessIff(a: string, b: string)
    ensures Compare(a, b) < 0 <==>
      exists k: nat :: AgreeBelow(Segments(a), Segments(b), k) && SegmentBefore(At(Segments(a), k), At(Segments(b), k))
  {
    var x, y := Segments(a), Segments(b);
    forall k: nat ensures SegmentBefore(At(x, k), At(y, k)) <==> CompareSegments(At(x, k), At(y, k)) < 0 {
      TextCompareIff(At(x, k).rest, At(y, k).rest);
    }
    if Compare(a, b) < 0 {
      CompareDecides(a, b);
      var k: nat :| DecidedAt(x, y, k, Compare(a, b));
      assert SegmentBefore(At(x, k), At(y, k));
    }
    if k: nat :| AgreeBelow(x, y, k) && SegmentBefore(At(x, k), At(y, k)) {
      SegmentOrder(At(x, k), At(y, k));
      DecidedMeansCompare(a, b, k, CompareSegments(At(x, k), At(y, k)));
    }
  }

  /** A leading v makes no difference, unless another one follows. */
  lemma LeadingVIsEqual(s: string)
    requires s == "" || s[0] != 'v'
    ensures Compare("v" + s, s) == 0
  {
    assert ("v" + s)[1..] == s;
    assert Segments("v" + s) == Segments(s);
    CompareDecides("v" + s, s);
  }

  /** Text after the number makes a segment greater, as a suffix does a version. */
  lemma SuffixIsGreater(s: string, suffix: string)
    requires suffix != "" && !IsDigit(suffix[0])
    ensures CompareSegments(Parse(s), Parse(s + suffix)) < 0
  {
    DigitsBefore(s, suffix);
    var n := DigitCount(s);
    assert (s + suffix)[..n] == s[..n] && (s + suffix)[n..] == s[n..] + suffix;
    assert TextBefore(s[n..], s[n..] + suffix, |s| - n) by {
      assert (s[n..] + suffix)[..|s| - n] == s[n..] && s[n..][..|s| - n] == s[n..];
    }
    TextCompareIff(s[n..], s[n..] + suffix);
  }

  lemma {:induction false} DigitsBefore(s: string, suffix: string)
    requires suffix != "" && !IsDigit(suffix[0])
    ensures DigitCount(s + suffix) == DigitCount(s)
  {
    if s == "" {
      assert s + suffix == suffix;
    } else {
      assert (s + suffix)[1..] == s[1..] + suffix;
      DigitsBefore(s[1..], suffix);
    }
  }

  /** Segments of digits compare as numbers, except that all numbers from the largest int upwards
      count as equal. */
  lemma {:induction false} NumbersCompareIff(a: string, b: string)
    requires (forall i :: 0 <= i < |a| ==> IsDigit(a[i])) && (forall i :: 0 <= i < |b| ==> IsDigit(b[i]))
    ensures (CompareSegments(Parse(a), Parse(b)) < 0 <==> Decimal(a) < Decimal(b))
      <==> !(Decimal(a) < Decimal(b) && Decimal(a) >= MAX_INT)
  {
    AllDigits(a);
    AllDigits(b);
    TextOrder("", "");
  }

  lemma AllDigits(s: string)
    requires forall i :: 0 <= i < |s| ==> IsDigit(s[i])
    ensures Parse(s) == Segment(Atoi(s), "")
  {
    assert DigitCount(s) == |s|;
    assert s[..|s|] == s && s[|s|..] == "";
  }

  predicate Digits(s: string) {
    forall i :: 0 <= i < |s| ==> IsDigit(s[i])
  }

  function Digit(d: nat): char
    requires d < 10
  {
    ('0' as int + d) as char
  }

  /** n written in decimal. */
  function Numeral(n: nat): string {
    if n < 10 then [Digit(n)] else Numeral(n / 10) + [Digit(n % 10)]
  }

  lemma {:induction false} NumeralReadsBack(n: nat)
    ensures Numeral(n) != "" && Digits(Numeral(n)) && Decimal(Numeral(n)) == n
  {
    var s, last := Numeral(n), Digit(n % 10);
    if n < 10 {
      assert s == [last] && s[..0] == "";
    } else {
      NumeralReadsBack(n / 10);
      assert s[..|s| - 1] == Numeral(n / 10);
    }
  }

  lemma {:induction false} SplitWithoutDot(s: string)
    requires Free(s, '.')
    ensures Split(s) == [s]
  {
    if s != "" {
      SplitWithoutDot(s[1..]);
      assert [s[0]] + s[1..] == s;
    }
  }

  lemma {:induction false} SingleSegments(a: string, b: string)
    requires Digits(a) && Digits(b)
    ensures Compare(a, b) == CompareSegments(Parse(a), Parse(b))
  {
    SplitWithoutDot(a);
    SplitWithoutDot(b);
    CompareFromStep([a], [b], 0);
  }

  /** Of two numbers as versions the first is less exactly when it is less and below the largest int. */
  lemma {:induction false} NumeralsCompareIff(m: nat, n: nat)
    ensures Compare(Numeral(m), Numeral(n)) < 0 <==> m < n && m < MAX_INT
  {
    NumeralReadsBack(m);
    NumeralReadsBack(n);
    SingleSegments(Numeral(m), Numeral(n));
    NumbersCompareIff(Numeral(m), Numeral(n));
    NumbersCompareIff(Numeral(n), Numeral(m));
  }

  /** So the two numbers around the limit count as equal. */
  lemma {:induction false} LargestIntEqualsNext()
    ensures Compare(Numeral(9223372036854775807), Numeral(9223372036854775808)) == 0
  {
    NumeralsCompareIff(9223372036854775807, 9223372036854775808);
    NumeralsCompareIff(9223372036854775808, 9223372036854775807);
    CompareIsAntisymmetric(Numeral(9223372036854775807), Numeral(9223372036854775808));
  }

  // ---- the code ----

  /** leadingInt: the number and where the rest begins. */
  method LeadingInt(s: string) returns (n: nat, i: nat)
    ensures i <= |s| && Segment(n, s[i..]) == Parse(s)
  {
    i := 0;
    while i < |s| && IsDigit(s[i])
      invariant i <= |s| && forall j :: 0 <= j < i ==> IsDigit(s[j])
    {
      i := i + 1;
    }
    assert i == DigitCount(s);
    n := Atoi(s[..i]);
  }

  method CompareVersionSegment(a: string, b: string) returns (c: int)
    ensures c == CompareSegments(Parse(a), Parse(b))
  {
    var an, ai := LeadingInt(a);
    var bn, bi := LeadingInt(b);
    if an != bn {
      return if an < bn then -1 else 1;
    }
    return CompareText(a[ai..], b[bi..]);
  }

  lemma CompareFromStep(a: seq<string>, b: seq<string>, i: nat)
    requires i < |a| || i < |b|
    ensures var c := CompareSegments(At(a, i), At(b, i));
      CompareFrom(a, b, i) == if c != 0 then c else CompareFrom(a, b, i + 1)
  {
  }

  /** The loop over the segments of both versions. */
  method CompareSplit(xs: seq<string>, ys: seq<string>) returns (c: int)
    ensures c == CompareFrom(xs, ys, 0)
  {
    var i := 0;
    while i < |xs| || i < |ys|
      invariant CompareFrom(xs, ys, i) == CompareFrom(xs, ys, 0)
      decreases |xs| + |ys| - i
    {
      var sa, sb := if i < |xs| then xs[i] else "", if i < |ys| then ys[i] else "";
      c := CompareVersionSegment(sa, sb);
      CompareFromStep(xs, ys, i);
      if c != 0 {
        return;
      }
      i := i + 1;
    }
    return 0;
  }

  method CompareVersions(a: string, b: string) returns (c: int)
    ensures c == Compare(a, b)
  {
    c := CompareSplit(Segments(a), Segments(b));
  }
}
