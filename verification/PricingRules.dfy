/**
 Choosing the pricing rule for a backend and a model: highest priority first, then the more
 specific pattern, then the earlier position.
 */
module PricingRules {
  import opened Basics

  const COST := "cost"

  /** The starting value of bestPriority in the loop. */
  const PRIORITY_FLOOR := -0x4000_0000

  datatype Rule = Rule(
    id: int, backend: string, model: string, priceType: string,
    inputPrice: real, outputPrice: real, currency: string, priority: int, enabled: bool)

  /** A rule list as the store returns it; None is nil. */
  type Rules = seq<Option<Rule>>

  predicate WildcardMatch(pattern: string, value: string) {
    pattern == "*" || pattern == value
  }

  function SpecificityScore(backend: string, model: string): int {
    (if backend != "*" then 2 else 0) + (if model != "*" then 1 else 0)
  }

  function Score(r: Rule): int {
    SpecificityScore(r.backend, r.model)
  }

  predicate Applies(r: Option<Rule>, backend: string, model: string) {
    r.Some? && r.value.enabled && WildcardMatch(r.value.backend, backend) && WildcardMatch(r.value.model, model)
  }

  predicate Eligible(r: Option<Rule>, backend: string, model: string) {
    Applies(r, backend, model) && r.value.priority >= PRIORITY_FLOOR
  }

  /** Strictly better in (priority, specificity). */
  predicate Better(a: Rule, b: Rule) {
    a.priority > b.priority || (a.priority == b.priority && Score(a) > Score(b))
  }

  /** Position i holds an eligible rule that none is better than, and that is better than every
      eligible one before it. */
  ghost predicate Wins(rules: Rules, backend: string, model: string, i: nat) {
    && i < |rules| && Eligible(rules[i], backend, model)
    && forall j :: 0 <= j < |rules| && Eligible(rules[j], backend, model) ==>
         !Better(rules[j].value, rules[i].value) && (j < i ==> Better(rules[i].value, rules[j].value))
  }

  /** The position the loop ends with. */
  function Best(rules: Rules, backend: string, model: string): (b: Option<nat>)
    ensures b.Some? ==> b.value < |rules| && Eligible(rules[b.value], backend, model)
  {
    if rules == [] then None
    else
      var n := |rules| - 1;
      var best := Best(rules[..n], backend, model);
      if !Applies(rules[n], backend, model) then best
      else
        var r := rules[n].value;
        var bestPriority := if best.Some? then rules[best.value].value.priority else PRIORITY_FLOOR;
        var bestScore := if best.Some? then Score(rules[best.value].value) else -1;
        if r.priority > bestPriority || (r.priority == bestPriority && Score(r) > bestScore) then Some(n) else best
  }

  lemma {:induction false} BestWins(rules: Rules, backend: string, model: string)
    ensures var b := Best(rules, backend, model);
      if b.Some? then Wins(rules, backend, model, b.value)
      else forall j :: 0 <= j < |rules| ==> !Eligible(rules[j], backend, model)
  {
    if rules != [] {
      BestWins(rules[..|rules| - 1], backend, model);
      assert forall j :: 0 <= j < |rules| - 1 ==> rules[j] == rules[..|rules| - 1][j];
    }
  }

  /** The loop ends with position i exactly when i wins, and with none exactly when no rule is eligible. */
  lemma BestIffWins(rules: Rules, backend: string, model: string, i: nat)
    ensures Best(rules, backend, model) == Some(i) <==> Wins(rules, backend, model, i)
    ensures Best(rules, backend, model) == None <==> forall j :: 0 <= j < |rules| ==> !Eligible(rules[j], backend, model)
  {
    BestWins(rules, backend, model);
  }

  predicate BetterRule(a: Rule, b: Rule) {
    || a.priority > b.priority
    || (a.priority == b.priority && a.backend != "*" && b.backend == "*")
    || (a.priority == b.priority && (a.backend == "*" <==> b.backend == "*") && a.model != "*" && b.model == "*")
  }

  /** Which of two rules is better: the higher priority, then a named backend before any backend, then
      a named model before any model. */
  lemma BetterIff(a: Rule, b: Rule)
    ensures Better(a, b) <==> BetterRule(a, b)
  {
  }

  function Match(rules: Rules, backend: string, model: string): Option<Rule> {
    var b := Best(rules, backend, model);
    if b.Some? then rules[b.value] else None
  }

  /** Reordering the list never changes the winning priority and specificity. */
  lemma WinningRankIgnoresOrder(rules1: Rules, rules2: Rules, backend: string, model: string)
    requires multiset(rules1) == multiset(rules2)
    ensures var (a, b) := (Match(rules1, backend, model), Match(rules2, backend, model));
      && (a.Some? <==> b.Some?)
      && (a.Some? ==> a.value.priority == b.value.priority && Score(a.value) == Score(b.value))
  {
    BestWins(rules1, backend, model);
    BestWins(rules2, backend, model);
    forall r | r in rules1 ensures r in rules2 { assert r in multiset(rules1); }
    forall r | r in rules2 ensures r in rules1 { assert r in multiset(rules2); }
    var a, b := Best(rules1, backend, model), Best(rules2, backend, model);
    if a.Some? {
      assert rules1[a.value] in rules1;
      var j :| 0 <= j < |rules2| && rules2[j] == rules1[a.value];
    }
    if b.Some? {
      assert rules2[b.value] in rules2;
      var j :| 0 <= j < |rules1| && rules1[j] == rules2[b.value];
    }
  }

  /** Which of several equally ranked rules wins does depend on the order. */
  lemma TiesDependOnOrder(r: Rule, id: int)
    requires r.enabled && r.priority >= PRIORITY_FLOOR && id != r.id
    ensures Match([Some(r), Some(r.(id := id))], r.backend, r.model) == Some(r)
    ensures Match([Some(r.(id := id)), Some(r)], r.backend, r.model) == Some(r.(id := id))
  {
    var s := r.(id := id);
    BestIffWins([Some(r), Some(s)], r.backend, r.model, 0);
    BestIffWins([Some(s), Some(r)], r.backend, r.model, 0);
  }

  /** An eligible rule of the list that no eligible one is better than. */
  ghost predicate Unbeaten(rules: Rules, backend: string, model: string, r: Option<Rule>) {
    && r in rules && Eligible(r, backend, model)
    && forall o :: o in rules && Eligible(o, backend, model) ==> !Better(o.value, r.value)
  }

  predicate Permuted(a: Rules, b: Rules) {
    multiset(a) == multiset(b)
  }

  lemma SameMembers(a: Rules, b: Rules, r: Option<Rule>)
    requires Permuted(a, b)
    ensures r in a <==> r in b
  {
    assert r in a <==> r in multiset(a);
    assert r in b <==> r in multiset(b);
  }

  lemma UnbeatenInBoth(a: Rules, b: Rules, backend: string, model: string, r: Option<Rule>)
    requires Permuted(a, b) && Unbeaten(a, backend, model, r)
    ensures Unbeaten(b, backend, model, r)
  {
    SameMembers(a, b, r);
    forall o | o in b && Eligible(o, backend, model) ensures !Better(o.value, r.value) {
      SameMembers(a, b, o);
    }
  }

  /** The loop returns an unbeaten rule whenever there is an eligible one. */
  lemma MatchIsUnbeaten(rules: Rules, backend: string, model: string)
    ensures var r := Match(rules, backend, model);
      if r.Some? then Unbeaten(rules, backend, model, r) else forall o :: o in rules ==> !Eligible(o, backend, model)
  {
    BestWins(rules, backend, model);
  }

  /** Listed first, an unbeaten rule is the one returned. */
  lemma UnbeatenCanWin(rules: Rules, backend: string, model: string, r: Option<Rule>) returns (other: Rules)
    requires Unbeaten(rules, backend, model, r)
    ensures Permuted(other, rules) && Match(other, backend, model) == r
  {
    var i :| 0 <= i < |rules| && rules[i] == r;
    other := [r] + rules[..i] + rules[i + 1..];
    assert rules == rules[..i] + [r] + rules[i + 1..];
    UnbeatenInBoth(rules, other, backend, model, r);
    forall j | 0 <= j < |other| && Eligible(other[j], backend, model) ensures !Better(other[j].value, r.value) {
      assert other[j] in other;
    }
    BestIffWins(other, backend, model, 0);
  }

  ghost predicate OneUnbeaten(rules: Rules, backend: string, model: string) {
    forall x, y :: Unbeaten(rules, backend, model, x) && Unbeaten(rules, backend, model, y) ==> x == y
  }

  /** The chosen rule is the same in every order of the list exactly when all unbeaten rules are equal. */
  lemma OrderIsIrrelevantIff(rules: Rules, backend: string, model: string)
    ensures (forall other :: Permuted(other, rules) ==> Match(other, backend, model) == Match(rules, backend, model))
      <==> OneUnbeaten(rules, backend, model)
  {
    if OneUnbeaten(rules, backend, model) {
      forall other | Permuted(other, rules) ensures Match(other, backend, model) == Match(rules, backend, model) {
        MatchIsUnbeaten(rules, backend, model);
        MatchIsUnbeaten(other, backend, model);
        WinningRankIgnoresOrder(other, rules, backend, model);
        if Match(other, backend, model).Some? {
          UnbeatenInBoth(other, rules, backend, model, Match(other, backend, model));
        }
      }
    } else {
      var x, y :| Unbeaten(rules, backend, model, x) && Unbeaten(rules, backend, model, y) && x != y;
      var first := UnbeatenCanWin(rules, backend, model, x);
      var second := UnbeatenCanWin(rules, backend, model, y);
    }
  }

  /** An enabled rule whose patterns name the backend and the model or stand for any, with a priority
      the loop considers. */
  predicate Fits(r: Rule, backend: string, model: string) {
    r.enabled && r.priority >= -0x4000_0000 && (r.backend == "*" || r.backend == backend) && (r.model == "*" || r.model == model)
  }

  /** The rule returned fits, none that fits has a higher priority, and of those of its priority none
      names the backend or, that being equal, the model while it does not. None is returned exactly
      when none fits. */
  lemma WinnerIsMostSpecific(rules: Rules, backend: string, model: string)
    ensures var m := Match(rules, backend, model);
      if m.None? then forall r: Rule :: Some(r) in rules ==> !Fits(r, backend, model)
      else
        && m in rules && Fits(m.value, backend, model)
        && forall o: Rule :: Some(o) in rules && Fits(o, backend, model) ==>
             && o.priority <= m.value.priority
             && (o.priority == m.value.priority ==>
                   && (m.value.backend == "*" ==> o.backend == "*")
                   && ((m.value.backend == "*" <==> o.backend == "*") && m.value.model == "*" ==> o.model == "*"))
  {
    MatchIsUnbeaten(rules, backend, model);
    var m := Match(rules, backend, model);
    forall o: Rule | Some(o) in rules && Fits(o, backend, model) ensures Eligible(Some(o), backend, model) {
    }
    if m.Some? {
      forall o: Rule | Some(o) in rules && Fits(o, backend, model) ensures !Better(o, m.value) {
        assert Eligible(Some(o), backend, model);
      }
      forall o: Rule ensures Better(o, m.value) <==> BetterRule(o, m.value) { BetterIff(o, m.value); }
    }
  }

  /** The order of the SQL store: priority descending, then id ascending. */
  predicate StoreOrder(rules: Rules) {
    forall i, j :: 0 <= i < j < |rules| ==>
      rules[i].Some? && rules[j].Some?
      && (rules[i].value.priority > rules[j].value.priority
          || (rules[i].value.priority == rules[j].value.priority && rules[i].value.id < rules[j].value.id))
  }

  /** On such a list the winner has the smallest id among the rules none is better than. */
  lemma SmallestIdWins(rules: Rules, backend: string, model: string, i: nat, j: nat)
    requires StoreOrder(rules) && Best(rules, backend, model) == Some(i)
    requires j < |rules| && Eligible(rules[j], backend, model) && !Better(rules[i].value, rules[j].value)
    ensures rules[i].value.id <= rules[j].value.id
  {
    BestWins(rules, backend, model);
  }

  /** matchPricingRule. */
  method MatchPricingRule(rules: Rules, backend: string, model: string) returns (best: Option<Rule>)
    ensures best == Match(rules, backend, model)
    ensures best.Some? ==> exists i: nat :: Wins(rules, backend, model, i) && best == rules[i]
    ensures best.None? ==> forall j :: 0 <= j < |rules| ==> !Eligible(rules[j], backend, model)
  {
    best := None;
    var bestScore, bestPriority := -1, PRIORITY_FLOOR;
    for i := 0 to |rules|
      invariant best == Match(rules[..i], backend, model)
      invariant best.None? ==> bestScore == -1 && bestPriority == PRIORITY_FLOOR
      invariant best.Some? ==> bestScore == Score(best.value) && bestPriority == best.value.priority
    {
      assert rules[..i + 1][..i] == rules[..i];
      var r := rules[i];
      if r.None? || !r.value.enabled {
        continue;
      }
      if !WildcardMatch(r.value.backend, backend) || !WildcardMatch(r.value.model, model) {
        continue;
      }
      var score := SpecificityScore(r.value.backend, r.value.model);
      if r.value.priority > bestPriority || (r.value.priority == bestPriority && score > bestScore) {
        best := r;
        bestPriority := r.value.priority;
        bestScore := score;
      }
    }
    assert rules[..|rules|] == rules;
    BestWins(rules, backend, model);
  }

  // ---- the price a rule list gives ----

  datatype PriceInfo = PriceInfo(inputPrice: real, outputPrice: real, currency: string, ruleId: int, source: string, priceType: string)

  /** A price request: without a type (ResolvePrice) or for one type (ResolvePriceByType). */
  datatype Query = Query(backend: string, model: string, kind: Option<string>)

  function CoalesceCurrency(c: string): string {
    if c == "" then "USD" else c
  }

  function FromRule(r: Rule, priceType: string): PriceInfo {
    PriceInfo(r.inputPrice, r.outputPrice, CoalesceCurrency(r.currency), r.id, "rule", priceType)
  }

  function DefaultPrice(priceType: string): PriceInfo {
    PriceInfo(0.7, 0.7, "USD", 0, "default", priceType)
  }

  /** ListRulesByType. */
  function OfType(rules: Rules, priceType: string): Rules {
    if rules == [] then []
    else
      var r := rules[|rules| - 1];
      OfType(rules[..|rules| - 1], priceType) + (if r.Some? && r.value.priceType == priceType then [r] else [])
  }

  /** What the first listing of a query finds. */
  function FirstHit(rules: Rules, q: Query): Option<Rule> {
    Match(Candidates(rules, q), q.backend, q.model)
  }

  /** Only a typed query other than cost lists a second time. */
  predicate FallsBack(rules: Rules, q: Query) {
    FirstHit(rules, q).None? && q.kind.Some? && q.kind.value != COST
  }

  /** The price of a query whose first listing saw `first` and whose second, if any, saw `second`. */
  function Answer(first: Rules, second: Rules, q: Query): PriceInfo {
    var hit := FirstHit(first, q);
    if hit.Some? then FromRule(hit.value, if q.kind.Some? then q.kind.value else "")
    else if q.kind.None? then DefaultPrice("")
    else if q.kind.value == COST then DefaultPrice(COST)
    else
      var cost := Match(OfType(second, COST), q.backend, q.model);
      if cost.Some? then FromRule(cost.value, COST) else DefaultPrice(COST)
  }

  lemma {:induction false} OfTypeMember(rules: Rules, priceType: string, r: Option<Rule>)
    ensures r in OfType(rules, priceType) <==> r in rules && r.Some? && r.value.priceType == priceType
  {
    if rules != [] {
      var n := |rules| - 1;
      OfTypeMember(rules[..n], priceType, r);
      assert rules == rules[..n] + [rules[n]];
    }
  }

  lemma CountAppend(rules: Rules, last: Option<Rule>, r: Option<Rule>)
    ensures multiset(rules + [last])[r] == multiset(rules)[r] + if last == r then 1 else 0
  {
  }

  lemma {:induction false} OfTypeCount(rules: Rules, priceType: string, r: Option<Rule>)
    ensures multiset(OfType(rules, priceType))[r]
         == if r.Some? && r.value.priceType == priceType then multiset(rules)[r] else 0
  {
    if rules != [] {
      var init, last := rules[..|rules| - 1], rules[|rules| - 1];
      OfTypeCount(init, priceType, r);
      assert rules == init + [last];
      CountAppend(init, last, r);
      CountAppend(OfType(init, priceType), last, r);
      OfTypeLast(rules, priceType);
    }
  }

  lemma OfTypeLast(rules: Rules, priceType: string)
    requires rules != []
    ensures var (init, last) := (OfType(rules[..|rules| - 1], priceType), rules[|rules| - 1]);
      OfType(rules, priceType) == if last.Some? && last.value.priceType == priceType then init + [last] else init
  {
  }

  lemma OfTypePermuted(a: Rules, b: Rules, priceType: string)
    requires Permuted(a, b)
    ensures Permuted(OfType(a, priceType), OfType(b, priceType))
  {
    var x, y := multiset(OfType(a, priceType)), multiset(OfType(b, priceType));
    forall r ensures x[r] == y[r] {
      OfTypeCount(a, priceType, r);
      OfTypeCount(b, priceType, r);
    }
    assert x == y;
  }

  /** The list the first listing chooses from. */
  function Candidates(rules: Rules, q: Query): Rules {
    if q.kind.Some? then OfType(rules, q.kind.value) else rules
  }

  /** When neither list has two different unbeaten rules, the orders they are listed in do not matter. */
  lemma AnswerIgnoresOrder(first: Rules, second: Rules, first': Rules, second': Rules, q: Query)
    requires Permuted(first', first) && Permuted(second', second)
    requires OneUnbeaten(Candidates(first, q), q.backend, q.model)
    requires OneUnbeaten(OfType(second, COST), q.backend, q.model)
    ensures Answer(first', second', q) == Answer(first, second, q)
  {
    if q.kind.Some? {
      OfTypePermuted(first', first, q.kind.value);
    }
    OfTypePermuted(second', second, COST);
    OrderIsIrrelevantIff(Candidates(first, q), q.backend, q.model);
    OrderIsIrrelevantIff(OfType(second, COST), q.backend, q.model);
    assert Match(Candidates(first', q), q.backend, q.model) == Match(Candidates(first, q), q.backend, q.model);
    assert Match(OfType(second', COST), q.backend, q.model) == Match(OfType(second, COST), q.backend, q.model);
  }

  /** The price that rule r gives, with its currency or US dollars. */
  predicate PricedBy(p: PriceInfo, r: Rule) {
    && p.source == "rule" && p.ruleId == r.id && p.inputPrice == r.inputPrice && p.outputPrice == r.outputPrice
    && p.currency == if r.currency == "" then "USD" else r.currency
  }

  /** The price without a fitting rule. */
  predicate PricedByDefault(p: PriceInfo) {
    p.source == "default" && p.ruleId == 0 && p.inputPrice == 0.7 && p.outputPrice == 0.7 && p.currency == "USD"
  }

  predicate AnyFits(rules: Rules, backend: string, model: string) {
    exists i :: 0 <= i < |rules| && rules[i].Some? && Fits(rules[i].value, backend, model)
  }

  lemma MatchIff(rules: Rules, backend: string, model: string)
    ensures Match(rules, backend, model).Some? <==> AnyFits(rules, backend, model)
    ensures Match(rules, backend, model).Some? ==> Match(rules, backend, model) in rules
  {
    WinnerIsMostSpecific(rules, backend, model);
    if AnyFits(rules, backend, model) {
      var i :| 0 <= i < |rules| && rules[i].Some? && Fits(rules[i].value, backend, model);
      assert Some(rules[i].value) in rules;
    }
  }

  /** The answer is the price of the best rule of the asked type, or else of the best cost rule, or else
      the default; its price type says which. */
  lemma AnswerIs(first: Rules, second: Rules, q: Query)
    ensures var a := Answer(first, second, q);
      if AnyFits(Candidates(first, q), q.backend, q.model) then
        && var r := Match(Candidates(first, q), q.backend, q.model);
        r.Some? && PricedBy(a, r.value) && a.priceType == if q.kind.Some? then q.kind.value else ""
      else if q.kind.None? then PricedByDefault(a) && a.priceType == ""
      else if q.kind.value != COST && AnyFits(OfType(second, COST), q.backend, q.model) then
        && var r := Match(OfType(second, COST), q.backend, q.model);
        r.Some? && PricedBy(a, r.value) && a.priceType == COST
      else PricedByDefault(a) && a.priceType == COST
  {
    MatchIff(Candidates(first, q), q.backend, q.model);
    MatchIff(OfType(second, COST), q.backend, q.model);
  }

  /** A price that comes from a rule comes from an enabled, matching rule of the asked type, or of
      type cost when the asked type has no eligible rule. */
  lemma AnswerComesFromRule(rules: Rules, q: Query)
    ensures var a := Answer(rules, rules, q);
      a.source == "rule" ==> exists r: Rule ::
        && Some(r) in rules && r.id == a.ruleId && r.inputPrice == a.inputPrice && r.outputPrice == a.outputPrice
        && Eligible(Some(r), q.backend, q.model)
        && (q.kind.Some? ==> r.priceType == a.priceType && (a.priceType == q.kind.value || a.priceType == COST))
  {
    var hit := FirstHit(rules, q);
    if hit.Some? {
      if q.kind.Some? { OfTypeMember(rules, q.kind.value, hit); }
      assert hit in rules;
    } else if q.kind.Some? && q.kind.value != COST {
      var cost := Match(OfType(rules, COST), q.backend, q.model);
      if cost.Some? {
        OfTypeMember(rules, COST, cost);
        assert cost in rules;
      }
    }
  }
}
