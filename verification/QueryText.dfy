/**
 Query normalisation before a cache lookup, and the pipeline of hit strategies that turns one
 query into a list of candidates.
 */
module QueryText {
  import opened Basics
  import opened Text

  predicate IsZeroWidth(c: char) {
    c == '\U{200B}' || c == '\U{FEFF}'
  }

  /** The text without zero-width characters. */
  function Strip(s: string): string {
    if s == "" then ""
    else
      var c := s[|s| - 1];
      Strip(s[..|s| - 1]) + (if IsZeroWidth(c) then "" else [c])
  }

  // ---- the one-pass loop ----

  /** The builder's content and prevSpace after the loop has read `s`. */
  function Squeezed(s: string): (string, bool) {
    if s == "" then ("", false)
    else
      var (o, p) := Squeezed(s[..|s| - 1]);
      var c := s[|s| - 1];
      if IsZeroWidth(c) then (o, p)
      else if IsSpace(c) then (if p then (o, p) else (o + " ", true))
      else (o + [c], false)
  }

  function Normalize(s: string): string {
    var t := TrimSpace(s);
    if t == "" then "" else TrimSpace(Squeezed(t).0)
  }

  // ---- the reference: split at white space, join with single spaces ----

  predicate EndsOpen(s: string) {
    s != "" && !IsSpace(s[|s| - 1])
  }

  /** strings.Fields: the maximal runs without white space. */
  function Fields(s: string): (fs: seq<string>)
    ensures EndsOpen(s) ==> fs != []
  {
    if s == "" then []
    else
      var init, c := s[..|s| - 1], s[|s| - 1];
      var fs := Fields(init);
      if IsSpace(c) then fs
      else if EndsOpen(init) then fs[..|fs| - 1] + [fs[|fs| - 1] + [c]]
      else fs + [[c]]
  }

  /** The fields after one more character. */
  lemma FieldsStep(s: string, c: char)
    ensures Fields(s + [c]) ==
      if IsSpace(c) then Fields(s)
      else if EndsOpen(s) then Fields(s)[..|Fields(s)| - 1] + [Fields(s)[|Fields(s)| - 1] + [c]]
      else Fields(s) + [[c]]
  {
    assert (s + [c])[..|s|] == s;
  }

  function Join(fs: seq<string>): string {
    if fs == [] then ""
    else if |fs| == 1 then fs[0]
    else Join(fs[..|fs| - 1]) + " " + fs[|fs| - 1]
  }

  predicate IsWord(w: string) {
    w != "" && forall i :: 0 <= i < |w| ==> !IsSpace(w[i])
  }

  predicate Words(fs: seq<string>) {
    forall i :: 0 <= i < |fs| ==> IsWord(fs[i])
  }

  /** Every field is a non-empty run without white space. */
  lemma {:induction false} FieldsAreWords(s: string)
    ensures Words(Fields(s))
  {
    if s != "" {
      FieldsAreWords(s[..|s| - 1]);
    }
  }

  lemma {:induction false} FieldsAppendWord(s: string, w: string)
    requires !EndsOpen(s) && IsWord(w)
    ensures Fields(s + w) == Fields(s) + [w]
  {
    var init, c := w[..|w| - 1], w[|w| - 1];
    assert s + w == (s + init) + [c] && w == init + [c];
    FieldsStep(s + init, c);
    if init == "" {
      assert s + init == s;
    } else {
      FieldsAppendWord(s, init);
      assert EndsOpen(s + init) by { assert (s + init)[|s + init| - 1] == init[|init| - 1]; }
      assert (Fields(s) + [init])[..|Fields(s)|] == Fields(s);
    }
  }

  lemma {:induction false} JoinEndsOpen(fs: seq<string>)
    requires Words(fs) && fs != []
    ensures EndsOpen(Join(fs)) && !IsSpace(Join(fs)[0])
  {
    if |fs| > 1 {
      JoinEndsOpen(fs[..|fs| - 1]);
    }
  }

  /** Splitting a joined list of words gives it back. */
  lemma {:induction false} FieldsOfJoin(fs: seq<string>)
    requires Words(fs)
    ensures Fields(Join(fs)) == fs
  {
    if fs != [] {
      var init, w := fs[..|fs| - 1], fs[|fs| - 1];
      FieldsOfJoin(init);
      assert fs == init + [w];
      if init == [] {
        FieldsAppendWord("", w);
        assert "" + w == w;
      } else {
        var s := Join(init) + " ";
        assert s[..|s| - 1] == Join(init);
        FieldsAppendWord(s, w);
      }
    }
  }

  // ---- the loop computes the reference ----

  function Lead(t: string): string {
    if t != "" && IsSpace(t[0]) then " " else ""
  }

  function Trail(t: string): string {
    if t != "" && IsSpace(t[|t| - 1]) then " " else ""
  }

  /** Words joined by single spaces, between outer white space. */
  function Padded(left: string, fs: seq<string>, right: string): string {
    if fs == [] then left else left + Join(fs) + right
  }

  /** What the builder holds when `t` without zero-width characters has been read. */
  function Built(t: string): string {
    Padded(Lead(t), Fields(t), Trail(t))
  }

  lemma {:induction false} JoinExtends(fs: seq<string>, c: char)
    requires fs != []
    ensures Join(fs[..|fs| - 1] + [fs[|fs| - 1] + [c]]) == Join(fs) + [c]
  {
    var init := fs[..|fs| - 1];
    var gs := init + [fs[|fs| - 1] + [c]];
    assert gs[..|gs| - 1] == init;
  }

  lemma {:induction false} NoFieldsNoWords(t: string)
    ensures Fields(t) == [] <==> AllSpaces(t)
  {
    if t != "" {
      var init := t[..|t| - 1];
      NoFieldsNoWords(init);
      assert t == init + [t[|t| - 1]];
    }
  }

  lemma BuiltSpace(t: string, c: char)
    requires IsSpace(c)
    ensures Built(t + [c]) == if Trail(t) != "" then Built(t) else Built(t) + " "
  {
    var u := t + [c];
    assert u[..|u| - 1] == t;
    NoFieldsNoWords(t);
    if Fields(t) == [] && t != "" {
      assert IsSpace(t[0]) && IsSpace(t[|t| - 1]);
    }
  }

  lemma JoinAppend(fs: seq<string>, w: string)
    requires fs != []
    ensures Join(fs + [w]) == Join(fs) + " " + w
  {
    assert (fs + [w])[..|fs|] == fs;
  }

  lemma PaddedLonger(left: string, fs: seq<string>, c: char)
    requires fs != []
    ensures Padded(left, fs[..|fs| - 1] + [fs[|fs| - 1] + [c]], "") == Padded(left, fs, "") + [c]
  {
    JoinExtends(fs, c);
    assert left + (Join(fs) + [c]) + "" == (left + Join(fs) + "") + [c];
  }

  lemma PaddedNew(left: string, fs: seq<string>, c: char)
    ensures Padded(left, fs + [[c]], "") == Padded(left, fs, " ") + [c]
  {
    if fs == [] {
      assert fs + [[c]] == [[c]] && Join([[c]]) == [c];
    } else {
      JoinAppend(fs, [c]);
      assert left + (Join(fs) + " " + [c]) + "" == (left + Join(fs) + " ") + [c];
    }
  }

  /** The outer white space after one more visible character. */
  lemma OuterStep(t: string, c: char)
    requires !IsSpace(c)
    ensures Lead(t + [c]) == Lead(t) && Trail(t + [c]) == "" && (EndsOpen(t) ==> Trail(t) == "")
    ensures !EndsOpen(t) && Fields(t) != [] ==> Trail(t) == " "
  {
    assert t != "" ==> (t + [c])[0] == t[0];
    assert (t + [c])[|t|] == c;
  }

  lemma {:induction false} LoopBuilds(s: string)
    ensures Squeezed(s).0 == Built(Strip(s))
    ensures Squeezed(s).1 <==> Trail(Strip(s)) != ""
  {
    if s != "" {
      var init, c := s[..|s| - 1], s[|s| - 1];
      var t := Strip(init);
      LoopBuilds(init);
      if IsZeroWidth(c) {
        assert Strip(s) == t;
      } else {
        assert Strip(s) == t + [c];
        if IsSpace(c) {
          BuiltSpace(t, c);
        } else {
          FieldsStep(t, c);
          OuterStep(t, c);
          if EndsOpen(t) {
            PaddedLonger(Lead(t), Fields(t), c);
          } else {
            PaddedNew(Lead(t), Fields(t), c);
          }
        }
      }
    }
  }

  lemma TrimBuilt(t: string)
    ensures TrimSpace(Built(t)) == Join(Fields(t))
  {
    FieldsAreWords(t);
    if Fields(t) == [] {
      assert Lead(t) == Lead(t) + "" + "";
      TrimPadded(Lead(t), "", "");
    } else {
      JoinEndsOpen(Fields(t));
      TrimPadded(Lead(t), Join(Fields(t)), Trail(t));
    }
  }

  // ---- outer white space does not matter ----

  lemma {:induction false} StripAppend(a: string, b: string)
    ensures Strip(a + b) == Strip(a) + Strip(b)
  {
    if b == "" {
      assert a + b == a;
    } else {
      assert (a + b)[..|a + b| - 1] == a + b[..|b| - 1];
      StripAppend(a, b[..|b| - 1]);
    }
  }

  lemma {:induction false} StripSpaces(s: string)
    requires AllSpaces(s)
    ensures Strip(s) == s
  {
    if s != "" {
      var init, c := s[..|s| - 1], s[|s| - 1];
      StripSpaces(init);
      assert IsSpace(c) && !IsZeroWidth(c);
      assert s == init + [c];
    }
  }

  lemma {:induction false} FieldsTrailing(s: string, right: string)
    requires AllSpaces(right)
    ensures Fields(s + right) == Fields(s)
  {
    if right == "" {
      assert s + right == s;
    } else {
      var init := right[..|right| - 1];
      assert (s + right)[..|s + right| - 1] == s + init;
      assert IsSpace(right[|right| - 1]);
      FieldsTrailing(s, init);
    }
  }

  lemma SpacesStayClosed(left: string, s: string)
    requires AllSpaces(left)
    ensures EndsOpen(left + s) <==> EndsOpen(s)
  {
    if s == "" && left != "" {
      assert (left + s)[|left + s| - 1] == left[|left| - 1];
      assert left[|left| - 1] in left;
    } else if s != "" {
      assert (left + s)[|left + s| - 1] == s[|s| - 1];
    }
  }

  lemma SameStep(a: string, b: string, c: char)
    requires Fields(a) == Fields(b) && (EndsOpen(a) <==> EndsOpen(b))
    ensures Fields(a + [c]) == Fields(b + [c])
  {
    FieldsStep(a, c);
    FieldsStep(b, c);
  }

  lemma {:induction false} FieldsLeading(left: string, s: string)
    requires AllSpaces(left)
    ensures Fields(left + s) == Fields(s)
  {
    if s == "" {
      assert left + s == "" + left;
      FieldsTrailing("", left);
    } else {
      var init, c := s[..|s| - 1], s[|s| - 1];
      FieldsLeading(left, init);
      SpacesStayClosed(left, init);
      SameStep(left + init, init, c);
      assert s == init + [c] && left + s == (left + init) + [c];
    }
  }

  lemma FieldsOfTrimmed(s: string)
    ensures Fields(Strip(TrimSpace(s))) == Fields(Strip(s))
  {
    var left, right := TrimSpaceShape(s);
    var t := TrimSpace(s);
    StripAppend(left + t, right);
    StripAppend(left, t);
    StripSpaces(left);
    StripSpaces(right);
    FieldsTrailing(left + Strip(t), right);
    FieldsLeading(left, Strip(t));
  }

  /** Normalising removes zero-width characters, splits at white space and joins with single spaces. */
  lemma NormalizeIsFieldJoin(s: string)
    ensures Normalize(s) == Join(Fields(Strip(s)))
  {
    FieldsOfTrimmed(s);
    var t := TrimSpace(s);
    LoopBuilds(t);
    TrimBuilt(Strip(t));
  }

  lemma {:induction false} StripHasNone(s: string)
    ensures forall i :: 0 <= i < |Strip(s)| ==> !IsZeroWidth(Strip(s)[i])
  {
    if s != "" { StripHasNone(s[..|s| - 1]); }
  }

  lemma {:induction false} StripNothing(s: string)
    requires forall i :: 0 <= i < |s| ==> !IsZeroWidth(s[i])
    ensures Strip(s) == s
  {
    if s != "" { StripNothing(s[..|s| - 1]); }
  }

  predicate Visible(fs: seq<string>) {
    forall i, j :: 0 <= i < |fs| && 0 <= j < |fs[i]| ==> !IsZeroWidth(fs[i][j])
  }

  lemma {:induction false} FieldsAreVisible(s: string)
    requires forall i :: 0 <= i < |s| ==> !IsZeroWidth(s[i])
    ensures Visible(Fields(s))
  {
    if s != "" { FieldsAreVisible(s[..|s| - 1]); }
  }

  lemma {:induction false} JoinIsVisible(fs: seq<string>)
    requires Visible(fs)
    ensures forall i :: 0 <= i < |Join(fs)| ==> !IsZeroWidth(Join(fs)[i])
  {
    if |fs| > 1 {
      var init := fs[..|fs| - 1];
      assert Visible(init) by {
        forall i, j | 0 <= i < |init| && 0 <= j < |init[i]| ensures !IsZeroWidth(init[i][j]) {
          assert init[i] == fs[i];
        }
      }
      JoinIsVisible(init);
    }
  }

  lemma FieldsOfNormalized(s: string)
    ensures Fields(Strip(Normalize(s))) == Fields(Strip(s))
  {
    NormalizeIsFieldJoin(s);
    StripHasNone(s);
    FieldsAreVisible(Strip(s));
    JoinIsVisible(Fields(Strip(s)));
    StripNothing(Normalize(s));
    FieldsAreWords(Strip(s));
    FieldsOfJoin(Fields(Strip(s)));
  }

  lemma NormalizeIsIdempotent(s: string)
    ensures Normalize(Normalize(s)) == Normalize(s)
  {
    FieldsOfNormalized(s);
    NormalizeIsFieldJoin(s);
    NormalizeIsFieldJoin(Normalize(s));
  }

  /** Two queries normalise to the same text exactly when they have the same words. */
  lemma SameNormalFormIff(a: string, b: string)
    ensures Normalize(a) == Normalize(b) <==> Fields(Strip(a)) == Fields(Strip(b))
  {
    NormalizeIsFieldJoin(a);
    NormalizeIsFieldJoin(b);
    FieldsOfNormalized(a);
    FieldsOfNormalized(b);
  }

  // ---- the shape of a normal form ----

  /** White space and zero-width characters below U+0100, and the two zero-width ones above it. */
  predicate Collapses(c: char) {
    '\t' <= c <= '\r' || c == ' ' || c == '\U{85}' || c == '\U{A0}' || c == '\U{200B}' || c == '\U{FEFF}'
  }

  lemma CollapsesIff(c: char)
    requires c < '\U{100}' || c == '\U{200B}' || c == '\U{FEFF}'
    ensures Collapses(c) <==> IsSpace(c) || IsZeroWidth(c)
  {
  }

  /** Single spaces between words, and nothing else that is white or without width. */
  predicate SingleSpaced(s: string) {
    forall i :: 0 <= i < |s| && (IsSpace(s[i]) || IsZeroWidth(s[i])) ==>
      s[i] == ' ' && 0 < i < |s| - 1 && !IsSpace(s[i - 1]) && !IsSpace(s[i + 1])
  }

  lemma JoinAt(s: string, w: string, i: nat)
    requires i < |s| + 1 + |w|
    ensures (s + " " + w)[i] == if i < |s| then s[i] else if i == |s| then ' ' else w[i - |s| - 1]
  {
  }

  lemma SingleSpacedJoin(s: string, w: string)
    requires SingleSpaced(s) && EndsOpen(s) && IsWord(w) && forall i :: 0 <= i < |w| ==> !IsZeroWidth(w[i])
    ensures SingleSpaced(s + " " + w)
  {
    var r := s + " " + w;
    forall i | 0 <= i < |r| && (IsSpace(r[i]) || IsZeroWidth(r[i]))
      ensures r[i] == ' ' && 0 < i < |r| - 1 && !IsSpace(r[i - 1]) && !IsSpace(r[i + 1])
    {
      JoinAt(s, w, i);
      if i < |s| {
        assert i < |s| - 1;
        assert r[i - 1] == s[i - 1] && r[i + 1] == s[i + 1];
      } else {
        assert i == |s|;
        assert r[i - 1] == s[|s| - 1] && r[i + 1] == w[0];
      }
    }
  }

  lemma {:induction false} JoinIsSingleSpaced(fs: seq<string>)
    requires Words(fs) && Visible(fs)
    ensures SingleSpaced(Join(fs))
  {
    if |fs| > 1 {
      var init, w := fs[..|fs| - 1], fs[|fs| - 1];
      assert Visible(init) by {
        forall i, j | 0 <= i < |init| && 0 <= j < |init[i]| ensures !IsZeroWidth(init[i][j]) { assert init[i] == fs[i]; }
      }
      JoinIsSingleSpaced(init);
      JoinEndsOpen(init);
      SingleSpacedJoin(Join(init), w);
    }
  }

  /** A normal form has single spaces between its words and no other white space. */
  lemma NormalFormIsSingleSpaced(s: string)
    ensures SingleSpaced(Normalize(s))
  {
    NormalizeIsFieldJoin(s);
    StripHasNone(s);
    FieldsAreVisible(Strip(s));
    FieldsAreWords(Strip(s));
    JoinIsSingleSpaced(Fields(Strip(s)));
  }

  lemma PrintableIsPlain(s: string)
    requires s != "" && forall i :: 0 <= i < |s| ==> '!' <= s[i] <= '~'
    ensures IsWord(s) && forall i :: 0 <= i < |s| ==> !IsZeroWidth(s[i])
  {
  }

  lemma WordIsField(w: string)
    requires IsWord(w)
    ensures Fields(w) == [w]
  {
    FieldsAppendWord("", w);
    assert "" + w == w;
  }

  /** A word of printable ASCII characters is its own normal form. */
  lemma PrintableStays(s: string)
    requires s != "" && forall i :: 0 <= i < |s| ==> '!' <= s[i] <= '~'
    ensures Normalize(s) == s
  {
    PrintableIsPlain(s);
    StripNothing(s);
    WordIsField(s);
    NormalizeIsFieldJoin(s);
  }

  // ---- hit strategies ----

  /** One configured strategy. Expanders and custom strategies answer per position and query;
      no answer stands for an error, a timeout or a refusal. */
  datatype Stage =
    | NormalizeStage
    | ExpandStage(expand: (nat, string) -> Option<string>)
    | CustomStage(prepare: (nat, string) -> seq<string>)
    | SkippedStage  // no expander, or no strategy of that name

  /** `base` followed by the items that are not there yet, each once. */
  function AddNew(base: seq<string>, items: seq<string>): seq<string> {
    if items == [] then base
    else
      var acc, x := AddNew(base, items[..|items| - 1]), items[|items| - 1];
      if x in acc then acc else acc + [x]
  }

  function NonEmpty(x: string): seq<string> {
    if x == "" then [] else [x]
  }

  function NormalItems(qs: seq<string>): seq<string> {
    if qs == [] then [] else NormalItems(qs[..|qs| - 1]) + NonEmpty(Normalize(qs[|qs| - 1]))
  }

  /** An empty expansion is dropped before normalising, not after. */
  function ExpandItem(expand: (nat, string) -> Option<string>, i: nat, q: string): seq<string> {
    var e := expand(i, q);
    if e.None? || e.value == "" then [] else [Normalize(e.value)]
  }

  function ExpandItems(expand: (nat, string) -> Option<string>, qs: seq<string>): seq<string> {
    if qs == [] then []
    else ExpandItems(expand, qs[..|qs| - 1]) + ExpandItem(expand, |qs| - 1, qs[|qs| - 1])
  }

  function CustomItems(prepare: (nat, string) -> seq<string>, qs: seq<string>): seq<string> {
    if qs == [] then []
    else CustomItems(prepare, qs[..|qs| - 1]) + NormalItems(prepare(|qs| - 1, qs[|qs| - 1]))
  }

  function Apply(stage: Stage, candidates: seq<string>): seq<string> {
    match stage
    case NormalizeStage =>
      var next := AddNew([], NormalItems(candidates));
      if next == [] then candidates else next
    case ExpandStage(expand) => AddNew(candidates, ExpandItems(expand, candidates))
    case CustomStage(prepare) => AddNew(candidates, CustomItems(prepare, candidates))
    case SkippedStage => candidates
  }

  function Candidates(query: string, stages: seq<Stage>): seq<string> {
    if stages == [] then [query] else Apply(stages[|stages| - 1], Candidates(query, stages[..|stages| - 1]))
  }

  predicate Distinct(xs: seq<string>) {
    forall i, j :: 0 <= i < j < |xs| ==> xs[i] != xs[j]
  }

  lemma {:induction false} AddNewKeeps(base: seq<string>, items: seq<string>)
    requires Distinct(base)
    ensures Distinct(AddNew(base, items)) && base <= AddNew(base, items)
    ensures forall x :: x in AddNew(base, items) <==> x in base || x in items
  {
    if items != [] {
      AddNewKeeps(base, items[..|items| - 1]);
      assert items == items[..|items| - 1] + [items[|items| - 1]];
    }
  }

  lemma {:induction false} NormalItemsAre(qs: seq<string>, x: string)
    ensures x in NormalItems(qs) <==> x != "" && exists q :: q in qs && Normalize(q) == x
  {
    if qs != [] {
      var init, last := qs[..|qs| - 1], qs[|qs| - 1];
      NormalItemsAre(init, x);
      assert forall q :: q in qs <==> q in init || q == last by { assert qs == init + [last]; }
      assert x in NormalItems(qs) <==> x in NormalItems(init) || x in NonEmpty(Normalize(last));
    }
  }

  predicate Normal(x: string) {
    Normalize(x) == x
  }

  lemma NormalItemIsNormal(qs: seq<string>, x: string)
    requires x in NormalItems(qs)
    ensures Normal(x)
  {
    NormalItemsAre(qs, x);
    var q :| q in qs && Normalize(q) == x;
    NormalizeIsIdempotent(q);
  }

  lemma {:induction false} ExpandItemIsNormal(expand: (nat, string) -> Option<string>, qs: seq<string>, x: string)
    requires x in ExpandItems(expand, qs)
    ensures Normal(x)
  {
    var n := |qs| - 1;
    if x in ExpandItems(expand, qs[..n]) {
      ExpandItemIsNormal(expand, qs[..n], x);
    } else {
      NormalizeIsIdempotent(expand(n, qs[n]).value);
    }
  }

  lemma {:induction false} CustomItemIsNormal(prepare: (nat, string) -> seq<string>, qs: seq<string>, x: string)
    requires x in CustomItems(prepare, qs)
    ensures Normal(x)
  {
    var n := |qs| - 1;
    if x in CustomItems(prepare, qs[..n]) {
      CustomItemIsNormal(prepare, qs[..n], x);
    } else {
      NormalItemIsNormal(prepare(n, qs[n]), x);
    }
  }

  /** What every stage keeps: the list stays non-empty and pairwise distinct, expand and custom
      stages only append, and every element but the original query is normalised. */
  lemma {:induction false} StageKeeps(query: string, stage: Stage, candidates: seq<string>)
    requires candidates != [] && Distinct(candidates)
    requires forall x :: x in candidates ==> x == query || Normal(x)
    ensures Apply(stage, candidates) != [] && Distinct(Apply(stage, candidates))
    ensures stage.ExpandStage? || stage.CustomStage? ==> candidates <= Apply(stage, candidates)
    ensures forall x :: x in Apply(stage, candidates) ==> x == query || Normal(x)
  {
    match stage
    case NormalizeStage =>
      AddNewKeeps([], NormalItems(candidates));
      forall x | x in NormalItems(candidates) ensures Normal(x) { NormalItemIsNormal(candidates, x); }
    case ExpandStage(expand) =>
      AddNewKeeps(candidates, ExpandItems(expand, candidates));
      forall x | x in ExpandItems(expand, candidates) ensures Normal(x) { ExpandItemIsNormal(expand, candidates, x); }
    case CustomStage(prepare) =>
      AddNewKeeps(candidates, CustomItems(prepare, candidates));
      forall x | x in CustomItems(prepare, candidates) ensures Normal(x) { CustomItemIsNormal(prepare, candidates, x); }
    case SkippedStage =>
  }

  /** For every list of strategies, expanders and custom strategies. */
  lemma {:induction false} CandidatesAreDistinctAndNormal(query: string, stages: seq<Stage>)
    ensures Candidates(query, stages) != [] && Distinct(Candidates(query, stages))
    ensures forall x :: x in Candidates(query, stages) ==> x == query || Normal(x)
  {
    if stages != [] {
      CandidatesAreDistinctAndNormal(query, stages[..|stages| - 1]);
      StageKeeps(query, stages[|stages| - 1], Candidates(query, stages[..|stages| - 1]));
    }
  }

  /** A normalize stage keeps exactly the non-empty normal forms of the list before it, unless there are none. */
  lemma NormalizeStageKeeps(candidates: seq<string>, x: string)
    ensures var next := Apply(NormalizeStage, candidates);
      if (exists q :: q in candidates && Normalize(q) != "")
      then x in next <==> x != "" && exists q :: q in candidates && Normalize(q) == x
      else next == candidates
  {
    var items := NormalItems(candidates);
    var next := AddNew([], items);
    AddNewKeeps([], items);
    NormalItemsAre(candidates, x);
    if q :| q in candidates && Normalize(q) != "" {
      NormalItemsAre(candidates, Normalize(q));
      assert Normalize(q) in next;
    } else if next != [] {
      assert next[0] in next;
      NormalItemsAre(candidates, next[0]);
    }
  }

  // ---- what the stages add ----

  /** Some expansion of the first n candidates is not empty and normalises to x. */
  ghost predicate SomeExpandsTo(expand: (nat, string) -> Option<string>, qs: seq<string>, n: nat, x: string)
    requires n <= |qs|
  {
    exists i: nat :: i < n && ExpandsTo(expand, i, qs[i], x)
  }

  predicate ExpandsTo(expand: (nat, string) -> Option<string>, i: nat, q: string, x: string) {
    expand(i, q).Some? && expand(i, q).value != "" && Normalize(expand(i, q).value) == x
  }

  lemma ExpandItemIff(expand: (nat, string) -> Option<string>, i: nat, q: string, x: string)
    ensures x in ExpandItem(expand, i, q) <==> ExpandsTo(expand, i, q, x)
  {
  }

  lemma SomeExpandsNext(expand: (nat, string) -> Option<string>, qs: seq<string>, n: nat, x: string)
    requires n < |qs|
    ensures SomeExpandsTo(expand, qs, n + 1, x) <==> SomeExpandsTo(expand, qs, n, x) || ExpandsTo(expand, n, qs[n], x)
  {
  }

  lemma InEither(a: seq<string>, b: seq<string>, x: string)
    ensures x in a + b <==> x in a || x in b
  {
  }

  lemma {:induction false} ExpandItemsIff(expand: (nat, string) -> Option<string>, qs: seq<string>, n: nat, x: string)
    requires n <= |qs|
    ensures x in ExpandItems(expand, qs[..n]) <==> SomeExpandsTo(expand, qs, n, x)
  {
    if n > 0 {
      ExpandItemsIff(expand, qs, n - 1, x);
      ExpandItemsStep(expand, qs, n - 1);
      InEither(ExpandItems(expand, qs[..n - 1]), ExpandItem(expand, n - 1, qs[n - 1]), x);
      ExpandItemIff(expand, n - 1, qs[n - 1], x);
      SomeExpandsNext(expand, qs, n - 1, x);
    }
  }

  /** An expand stage leaves exactly the candidates and the normal forms of the non-empty expansions. */
  lemma ExpandStageKeeps(expand: (nat, string) -> Option<string>, candidates: seq<string>, x: string)
    requires Distinct(candidates)
    ensures x in Apply(ExpandStage(expand), candidates)
      <==> x in candidates || SomeExpandsTo(expand, candidates, |candidates|, x)
  {
    AddNewKeeps(candidates, ExpandItems(expand, candidates));
    ExpandItemsIff(expand, candidates, |candidates|, x);
    assert candidates[..|candidates|] == candidates;
  }

  /** Some text prepared for the first n candidates normalises to x. */
  ghost predicate SomePrepares(prepare: (nat, string) -> seq<string>, qs: seq<string>, n: nat, x: string)
    requires n <= |qs|
  {
    exists i: nat :: i < n && Prepares(prepare(i, qs[i]), x)
  }

  ghost predicate Prepares(prepared: seq<string>, x: string) {
    exists p :: p in prepared && Normalize(p) == x
  }

  lemma SomePreparesNext(prepare: (nat, string) -> seq<string>, qs: seq<string>, n: nat, x: string)
    requires n < |qs|
    ensures SomePrepares(prepare, qs, n + 1, x) <==> SomePrepares(prepare, qs, n, x) || Prepares(prepare(n, qs[n]), x)
  {
  }

  lemma NormalItemsIff(prepared: seq<string>, x: string)
    ensures x in NormalItems(prepared) <==> x != "" && Prepares(prepared, x)
  {
    NormalItemsAre(prepared, x);
  }

  lemma {:induction false} CustomItemsIff(prepare: (nat, string) -> seq<string>, qs: seq<string>, n: nat, x: string)
    requires n <= |qs|
    ensures x in CustomItems(prepare, qs[..n]) <==> x != "" && SomePrepares(prepare, qs, n, x)
  {
    if n > 0 {
      CustomItemsIff(prepare, qs, n - 1, x);
      CustomItemsStep(prepare, qs, n - 1);
      InEither(CustomItems(prepare, qs[..n - 1]), NormalItems(prepare(n - 1, qs[n - 1])), x);
      NormalItemsIff(prepare(n - 1, qs[n - 1]), x);
      SomePreparesNext(prepare, qs, n - 1, x);
    }
  }

  /** A custom stage leaves exactly the candidates and the non-empty normal forms of what is prepared. */
  lemma CustomStageKeeps(prepare: (nat, string) -> seq<string>, candidates: seq<string>, x: string)
    requires Distinct(candidates)
    ensures x in Apply(CustomStage(prepare), candidates)
      <==> x in candidates || (x != "" && SomePrepares(prepare, candidates, |candidates|, x))
  {
    AddNewKeeps(candidates, CustomItems(prepare, candidates));
    CustomItemsIff(prepare, candidates, |candidates|, x);
    assert candidates[..|candidates|] == candidates;
  }

  /** What later items add comes after what earlier ones added. */
  lemma {:induction false} AddNewGrows(base: seq<string>, items: seq<string>, n: nat)
    requires n <= |items|
    ensures AddNew(base, items[..n]) <= AddNew(base, items)
  {
    if n < |items| {
      AddNewGrows(base, items[..|items| - 1], n);
      assert items[..|items| - 1][..n] == items[..n];
    } else {
      assert items[..n] == items;
    }
  }

  lemma {:induction false} AddNewPrefix(base: seq<string>, few: seq<string>, many: seq<string>)
    requires few <= many
    ensures AddNew(base, few) <= AddNew(base, many)
  {
    AddNewGrows(base, many, |few|);
    assert many[..|few|] == few;
  }

  lemma {:induction false} ExpandItemsGrow(expand: (nat, string) -> Option<string>, qs: seq<string>, n: nat)
    requires n <= |qs|
    ensures ExpandItems(expand, qs[..n]) <= ExpandItems(expand, qs)
  {
    if n < |qs| {
      ExpandItemsGrow(expand, qs[..|qs| - 1], n);
      assert qs[..|qs| - 1][..n] == qs[..n];
    } else {
      assert qs[..n] == qs;
    }
  }

  /** The expansions come in the order of their candidates. */
  lemma {:induction false} ExpandsInOrder(expand: (nat, string) -> Option<string>, candidates: seq<string>, n: nat)
    requires n <= |candidates|
    ensures AddNew(candidates, ExpandItems(expand, candidates[..n])) <= Apply(ExpandStage(expand), candidates)
  {
    ExpandItemsGrow(expand, candidates, n);
    AddNewPrefix(candidates, ExpandItems(expand, candidates[..n]), ExpandItems(expand, candidates));
  }

  lemma {:induction false} CustomItemsGrow(prepare: (nat, string) -> seq<string>, qs: seq<string>, n: nat)
    requires n <= |qs|
    ensures CustomItems(prepare, qs[..n]) <= CustomItems(prepare, qs)
  {
    if n < |qs| {
      CustomItemsGrow(prepare, qs[..|qs| - 1], n);
      assert qs[..|qs| - 1][..n] == qs[..n];
    } else {
      assert qs[..n] == qs;
    }
  }

  /** So do the texts a custom strategy prepares. */
  lemma {:induction false} CustomInOrder(prepare: (nat, string) -> seq<string>, candidates: seq<string>, n: nat)
    requires n <= |candidates|
    ensures AddNew(candidates, CustomItems(prepare, candidates[..n])) <= Apply(CustomStage(prepare), candidates)
  {
    CustomItemsGrow(prepare, candidates, n);
    AddNewPrefix(candidates, CustomItems(prepare, candidates[..n]), CustomItems(prepare, candidates));
  }

  // ---- empty candidates ----

  /** An expand stage lets in an empty candidate exactly when some expansion is not empty and
      normalises to nothing. */
  lemma ExpandAddsEmptyIff(expand: (nat, string) -> Option<string>, candidates: seq<string>)
    requires Distinct(candidates)
    ensures "" in Apply(ExpandStage(expand), candidates)
      <==> "" in candidates || exists i: nat :: i < |candidates| && ExpandsTo(expand, i, candidates[i], "")
  {
    ExpandStageKeeps(expand, candidates, "");
  }

  /** A custom stage never adds one. */
  lemma CustomAddsNoEmpty(prepare: (nat, string) -> seq<string>, candidates: seq<string>)
    requires Distinct(candidates)
    ensures "" in Apply(CustomStage(prepare), candidates) <==> "" in candidates
  {
    CustomStageKeeps(prepare, candidates, "");
  }

  /** A normalize stage keeps one exactly when every candidate normalises to nothing. */
  lemma NormalizeKeepsEmptyIff(candidates: seq<string>)
    ensures "" in Apply(NormalizeStage, candidates)
      <==> "" in candidates && forall q :: q in candidates ==> Normalize(q) == ""
  {
    NormalizeStageKeeps(candidates, "");
  }

  /** No expansion of any stage is a non-empty text that normalises to nothing. */
  ghost predicate ExpandsToText(stages: seq<Stage>) {
    forall k :: 0 <= k < |stages| && stages[k].ExpandStage? ==>
      forall i: nat, q: string :: !ExpandsTo(stages[k].expand, i, q, "")
  }

  /** Then a query that is not empty never leads to an empty candidate. */
  lemma {:induction false} NoEmptyCandidate(query: string, stages: seq<Stage>)
    requires query != "" && ExpandsToText(stages)
    ensures "" !in Candidates(query, stages)
  {
    if stages != [] {
      var init := stages[..|stages| - 1];
      var candidates := Candidates(query, init);
      assert forall k :: 0 <= k < |init| ==> init[k] == stages[k];
      NoEmptyCandidate(query, init);
      CandidatesAreDistinctAndNormal(query, init);
      match stages[|stages| - 1]
      case NormalizeStage => NormalizeKeepsEmptyIff(candidates);
      case ExpandStage(expand) => ExpandAddsEmptyIff(expand, candidates);
      case CustomStage(prepare) => CustomAddsNoEmpty(prepare, candidates);
      case SkippedStage =>
    }
  }

  /** With an expander that answers a single space there is one. */
  lemma SpaceAddsEmpty(query: string)
    ensures "" in Candidates(query, [ExpandStage((i: nat, q: string) => Some(" "))])
  {
    var stage := ExpandStage((i: nat, q: string) => Some(" "));
    assert [stage][..0] == [] && Candidates(query, []) == [query];
    TrimLeftAll(" ");
    assert Normalize(" ") == "";
    assert ExpandsTo(stage.expand, 0, query, "");
    ExpandAddsEmptyIff(stage.expand, [query]);
    assert [query][0] == query;
  }

  // ---- the code ----

  method NormalizeQueryText(s: string) returns (r: string)
    ensures r == Normalize(s)
  {
    var t := TrimSpace(s);
    if t == "" {
      return "";
    }
    var b, prevSpace := "", false;
    for i := 0 to |t|
      invariant (b, prevSpace) == Squeezed(t[..i])
    {
      assert t[..i + 1][..i] == t[..i];
      var c := t[i];
      if IsZeroWidth(c) {
        continue;
      }
      if IsSpace(c) {
        if prevSpace {
          continue;
        }
        b := b + " ";
        prevSpace := true;
        continue;
      }
      prevSpace := false;
      b := b + [c];
    }
    assert t[..|t|] == t;
    return TrimSpace(b);
  }

  /** Append x to the list unless it was seen. */
  method AddIfNew(next: seq<string>, seen: set<string>, x: string) returns (next': seq<string>, seen': set<string>)
    requires forall y :: y in seen <==> y in next
    ensures next' == (if x in next then next else next + [x])
    ensures forall y :: y in seen' <==> y in next'
  {
    next', seen' := next, seen;
    if x !in seen {
      next', seen' := next + [x], seen + {x};
    }
  }

  lemma AddOne(base: seq<string>, items: seq<string>, x: string)
    ensures AddNew(base, items + [x]) == if x in AddNew(base, items) then AddNew(base, items) else AddNew(base, items) + [x]
  {
    assert (items + [x])[..|items|] == items;
  }

  /** The items of one more candidate, as the loops meet them. */
  lemma NormalItemsStep(qs: seq<string>, i: nat)
    requires i < |qs|
    ensures NormalItems(qs[..i + 1]) == NormalItems(qs[..i]) + NonEmpty(Normalize(qs[i]))
  {
    assert qs[..i + 1][..i] == qs[..i];
  }

  lemma ExpandItemsStep(expand: (nat, string) -> Option<string>, qs: seq<string>, i: nat)
    requires i < |qs|
    ensures ExpandItems(expand, qs[..i + 1]) == ExpandItems(expand, qs[..i]) + ExpandItem(expand, i, qs[i])
  {
    assert qs[..i + 1][..i] == qs[..i];
  }

  lemma CustomItemsStep(prepare: (nat, string) -> seq<string>, qs: seq<string>, i: nat)
    requires i < |qs|
    ensures CustomItems(prepare, qs[..i + 1]) == CustomItems(prepare, qs[..i]) + NormalItems(prepare(i, qs[i]))
  {
    assert qs[..i + 1][..i] == qs[..i];
  }

  method ApplyNormalize(candidates: seq<string>) returns (result: seq<string>)
    ensures result == Apply(NormalizeStage, candidates)
  {
    var next: seq<string>, seen: set<string> := [], {};
    ghost var items: seq<string> := [];
    for i := 0 to |candidates|
      invariant items == NormalItems(candidates[..i])
      invariant next == AddNew([], items)
      invariant forall y :: y in seen <==> y in next
    {
      NormalItemsStep(candidates, i);
      var nq := NormalizeQueryText(candidates[i]);
      if nq == "" {
        continue;
      }
      AddOne([], items, nq);
      items := items + [nq];
      next, seen := AddIfNew(next, seen, nq);
    }
    assert candidates[..|candidates|] == candidates;
    result := if |next| > 0 then next else candidates;
  }

  method ApplyExpand(candidates: seq<string>, expand: (nat, string) -> Option<string>) returns (next: seq<string>)
    ensures next == Apply(ExpandStage(expand), candidates)
  {
    next := candidates;
    var seen := set q | q in candidates;
    ghost var items: seq<string> := [];
    for i := 0 to |candidates|
      invariant items == ExpandItems(expand, candidates[..i])
      invariant next == AddNew(candidates, items)
      invariant forall y :: y in seen <==> y in next
    {
      ExpandItemsStep(expand, candidates, i);
      var expanded := expand(i, candidates[i]);
      if expanded.None? || expanded.value == "" {
        continue;
      }
      var e := NormalizeQueryText(expanded.value);
      AddOne(candidates, items, e);
      items := items + [e];
      next, seen := AddIfNew(next, seen, e);
    }
    assert candidates[..|candidates|] == candidates;
  }

  lemma {:induction false} AddNewAppend(base: seq<string>, xs: seq<string>, ys: seq<string>)
    ensures AddNew(base, xs + ys) == AddNew(AddNew(base, xs), ys)
  {
    if ys == [] {
      assert xs + ys == xs;
    } else {
      var init := ys[..|ys| - 1];
      AddNewAppend(base, xs, init);
      assert xs + ys == (xs + init) + [ys[|ys| - 1]];
      AddOne(base, xs + init, ys[|ys| - 1]);
    }
  }

  /** The inner loop over what one custom strategy prepared. */
  method AddPrepared(next: seq<string>, seen: set<string>, prepared: seq<string>)
    returns (next': seq<string>, seen': set<string>)
    requires forall y :: y in seen <==> y in next
    ensures next' == AddNew(next, NormalItems(prepared))
    ensures forall y :: y in seen' <==> y in next'
  {
    next', seen' := next, seen;
    ghost var items: seq<string> := [];
    for j := 0 to |prepared|
      invariant items == NormalItems(prepared[..j])
      invariant next' == AddNew(next, items)
      invariant forall y :: y in seen' <==> y in next'
    {
      NormalItemsStep(prepared, j);
      var p := NormalizeQueryText(prepared[j]);
      if p == "" {
        continue;
      }
      AddOne(next, items, p);
      items := items + [p];
      next', seen' := AddIfNew(next', seen', p);
    }
    assert prepared[..|prepared|] == prepared;
  }

  method ApplyCustom(candidates: seq<string>, prepare: (nat, string) -> seq<string>) returns (next: seq<string>)
    ensures next == Apply(CustomStage(prepare), candidates)
  {
    next := candidates;
    var seen := set q | q in candidates;
    for i := 0 to |candidates|
      invariant next == AddNew(candidates, CustomItems(prepare, candidates[..i]))
      invariant forall y :: y in seen <==> y in next
    {
      var prepared := prepare(i, candidates[i]);
      next, seen := AddPrepared(next, seen, prepared);
      CustomItemsStep(prepare, candidates, i);
      AddNewAppend(candidates, CustomItems(prepare, candidates[..i]), NormalItems(prepared));
    }
    assert candidates[..|candidates|] == candidates;
  }

  method ApplyHitStrategies(query: string, stages: seq<Stage>) returns (candidates: seq<string>)
    ensures candidates == Candidates(query, stages)
    ensures candidates != [] && Distinct(candidates)
    ensures forall x :: x in candidates ==> x == query || Normal(x)
  {
    candidates := [query];
    for i := 0 to |stages|
      invariant candidates == Candidates(query, stages[..i])
    {
      assert stages[..i + 1][..i] == stages[..i];
      match stages[i]
      case NormalizeStage => candidates := ApplyNormalize(candidates);
      case ExpandStage(expand) => candidates := ApplyExpand(candidates, expand);
      case CustomStage(prepare) => candidates := ApplyCustom(candidates, prepare);
      case SkippedStage =>
    }
    assert stages[..|stages|] == stages;
    CandidatesAreDistinctAndNormal(query, stages);
    if |candidates| == 0 && query != "" {
      return [query];
    }
  }
}
