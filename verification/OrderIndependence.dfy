/** The order in which products, rules, bindings and choices are stored never shows in a result. */
module OrderIndependence {
  import opened Wrappers
  import opened Sequences
  import opened Ordering
  import opened Evidence
  import opened Catalog

  /** Every lookup by key has at most one answer. */
  ghost predicate UniqueKeys(k: Knowledge) {
    && Distinct(ProductIds(k.products))
    && Distinct(ChildIds(k.bindings))
    && forall b :: b in k.bindings ==> Distinct(ChosenProducts(b.products))
  }

  ghost predicate SameBinding(b: Binding, b': Binding) {
    b.childId == b'.childId && multiset(b.products) == multiset(b'.products)
    && multiset(b.ruleIds) == multiset(b'.ruleIds)
  }

  ghost predicate BindingsWithin(bs: seq<Binding>, bs': seq<Binding>) {
    forall b :: b in bs ==> exists b' :: b' in bs' && SameBinding(b, b')
  }

  /** The same catalogue, with any of its lists stored in another order. */
  ghost predicate Reordered(k: Knowledge, k': Knowledge) {
    && k.schemaVersion == k'.schemaVersion
    && multiset(k.products) == multiset(k'.products)
    && multiset(k.rules) == multiset(k'.rules)
    && BindingsWithin(k.bindings, k'.bindings) && BindingsWithin(k'.bindings, k.bindings)
  }

  // ----- unique keys

  lemma {:induction false} KeyIsUnique<T>(s: seq<T>, key: T -> string)
    requires Distinct(Map(s, key))
    ensures forall x, y :: x in s && y in s && key(x) == key(y) ==> x == y
  {
    forall x, y | x in s && y in s && key(x) == key(y) ensures x == y {
      var i :| 0 <= i < |s| && s[i] == x;
      var j :| 0 <= j < |s| && s[j] == y;
      assert Map(s, key)[i] == Map(s, key)[j];
    }
  }

  lemma {:induction false} FindByKey<T>(s: seq<T>, x: T, p: T -> bool, key: T -> string)
    requires Distinct(Map(s, key)) && x in s && p(x)
    requires forall y :: y in s && p(y) ==> key(y) == key(x)
    ensures Find(s, p) == Some(x)
  {
    KeyIsUnique(s, key);
  }

  lemma {:induction false} FindBindingByKey(bindings: seq<Binding>, b: Binding)
    requires Distinct(ChildIds(bindings)) && b in bindings
    ensures FindBinding(bindings, b.childId) == Some(b)
  {
    FindByKey(bindings, b, (x: Binding) => x.childId == b.childId, (x: Binding) => x.childId);
  }

  lemma {:induction false} ChoiceIsReordered(cs: seq<Choice>, cs': seq<Choice>, productId: string)
    requires multiset(cs) == multiset(cs') && Distinct(ChosenProducts(cs))
    ensures FindChoice(cs, productId) == FindChoice(cs', productId)
  {
    SameMembers(cs, cs');
    KeyIsUnique(cs, (c: Choice) => c.productId);
    FindPermutes(cs, cs', (c: Choice) => c.productId == productId);
  }

  lemma {:induction false} BindingIsReordered(bs: seq<Binding>, bs': seq<Binding>, childId: string)
    requires BindingsWithin(bs, bs') && BindingsWithin(bs', bs)
    requires Distinct(ChildIds(bs)) && Distinct(ChildIds(bs'))
    ensures FindBinding(bs, childId).Some? == FindBinding(bs', childId).Some?
    ensures FindBinding(bs, childId).Some? ==>
              && FindBinding(bs, childId).value in bs
              && SameBinding(FindBinding(bs, childId).value, FindBinding(bs', childId).value)
  {
    hide Find, Distinct, Map;
    if FindBinding(bs, childId).Some? {
      var b := FindBinding(bs, childId).value;
      var b' :| b' in bs' && SameBinding(b, b');
      FindBindingByKey(bs', b');
    }
  }

  lemma {:induction false} SameBindingSameView(b: Binding, b': Binding, productId: string)
    requires SameBinding(b, b') && Distinct(ChosenProducts(b.products))
    ensures FindChoice(b.products, productId) == FindChoice(b'.products, productId)
    ensures (set id | id in b.ruleIds) == (set id | id in b'.ruleIds)
  {
    SameMembers(b.ruleIds, b'.ruleIds);
    ChoiceIsReordered(b.products, b'.products, productId);
  }

  lemma {:induction false} ViewIsReordered(bs: seq<Binding>, bs': seq<Binding>, childId: string, productId: string)
    requires BindingsWithin(bs, bs') && BindingsWithin(bs', bs)
    requires Distinct(ChildIds(bs)) && Distinct(ChildIds(bs'))
    requires forall b :: b in bs ==> Distinct(ChosenProducts(b.products))
    ensures ChoiceFor(bs, childId, productId) == ChoiceFor(bs', childId, productId)
    ensures ApprovedBy(bs, childId) == ApprovedBy(bs', childId)
  {
    hide BindingsWithin, Distinct, SameBinding, Find;
    BindingIsReordered(bs, bs', childId);
    if FindBinding(bs, childId).Some? {
      SameBindingSameView(FindBinding(bs, childId).value, FindBinding(bs', childId).value, productId);
    }
  }

  // ----- identification

  lemma {:induction false} IdentifyIsReordered(ps: seq<Product>, ps': seq<Product>, ev: AppEvidence)
    requires multiset(ps) == multiset(ps')
    ensures IdentifyProducts(ps, ev) == IdentifyProducts(ps', ev)
  {
    var test := (p: Product) => Identifies(p, ev);
    FilterPermutes(ps, ps', test);
    MapPermutes(Filter(ps, test), Filter(ps', test), (p: Product) => p.id);
    SortIdsPermutes(ProductIds(Filter(ps, test)), ProductIds(Filter(ps', test)));
  }

  lemma {:induction false} TypeIsReordered(ps: seq<Product>, ps': seq<Product>, ev: AppEvidence)
    requires multiset(ps) == multiset(ps') && Distinct(ProductIds(ps))
    ensures ResolveProductType(ps, ev) == ResolveProductType(ps', ev)
  {
    IdentifyIsReordered(ps, ps', ev);
    var identified := IdentifyProducts(ps, ev);
    if |identified| == 1 {
      SameMembers(ps, ps');
      KeyIsUnique(ps, (p: Product) => p.id);
      FindPermutes(ps, ps', (p: Product) => p.id == identified[0]);
    }
  }

  // ----- rules

  lemma {:induction false} RuleOrderIsTotal()
    ensures TotalPreorder(RuleOrder)
  {
    AtMostIsTotal();
  }

  /** What `BestRules` returns: every rule of the least rank, ids ascending. */
  lemma {:induction false} BestRulesAre(rules: seq<Rule>) returns (n: nat)
    ensures SortedBy(RuleIds(BestRules(rules)), AtMost)
    ensures multiset(BestRules(rules)) == multiset(OfRank(rules, n))
    ensures rules != [] ==> BestRules(rules) != []
    ensures forall r :: r in BestRules(rules) <==> r in rules && Rank(r.kind) == n
    ensures forall r :: r in rules ==> n <= Rank(r.kind)
  {
    var sorted := SortBy(rules, RuleOrder);
    RuleOrderIsTotal();
    SortSorts(rules, RuleOrder);
    SameMembers(sorted, rules);
    if rules == [] {
      n := 0;
    } else {
      assert sorted[0] in sorted;
      n := Rank(sorted[0].kind);
      forall s | s in sorted ensures n <= Rank(s.kind) {
        var j :| 0 <= j < |sorted| && sorted[j] == s;
        assert j > 0 ==> RuleOrder(sorted[0], sorted[j]);
      }
      FilterPermutes(sorted, rules, (r: Rule) => Rank(r.kind) == n);
      FilterKeepsOrder(sorted, n);
      assert sorted[0] in OfRank(sorted, n);
    }
  }

  lemma {:induction false} FilterKeepsOrder(sorted: seq<Rule>, n: nat)
    requires SortedBy(sorted, RuleOrder)
    ensures SortedBy(RuleIds(OfRank(sorted, n)), AtMost)
  {
    if sorted != [] {
      FilterKeepsOrder(sorted[1..], n);
      var rest := OfRank(sorted[1..], n);
      if Rank(sorted[0].kind) == n {
        forall j | 0 <= j < |rest| ensures AtMost(sorted[0].id, rest[j].id) {
          assert rest[j] in sorted[1..];
          var i :| 0 <= i < |sorted[1..]| && sorted[1..][i] == rest[j];
          assert RuleOrder(sorted[0], sorted[i + 1]);
        }
      }
    }
  }

  lemma {:induction false} BestIsReordered(rules: seq<Rule>, rules': seq<Rule>)
    requires multiset(rules) == multiset(rules')
    ensures RuleIds(BestRules(rules)) == RuleIds(BestRules(rules'))
    ensures multiset(BestRules(rules)) == multiset(BestRules(rules'))
  {
    var best, best' := BestRules(rules), BestRules(rules');
    SameMembers(rules, rules');
    var n := BestRulesAre(rules);
    var n' := BestRulesAre(rules');
    if rules != [] {
      assert best[0] in best && best'[0] in best';
      assert n == n';
    }
    FilterPermutes(rules, rules', (r: Rule) => Rank(r.kind) == n);
    MapPermutes(best, best', (r: Rule) => r.id);
    AscendingIsUnique(RuleIds(best), RuleIds(best'));
  }

  lemma {:induction false} DisagreeIsReordered(rules: seq<Rule>, rules': seq<Rule>)
    requires multiset(rules) == multiset(rules')
    ensures Disagree(rules) == Disagree(rules')
  {
    SameMembers(rules, rules');
    forall i, j | 0 <= i < |rules| && 0 <= j < |rules| && rules[i].classification != rules[j].classification
      ensures Disagree(rules') {
      assert rules[i] in rules' && rules[j] in rules';
    }
    forall i, j | 0 <= i < |rules'| && 0 <= j < |rules'| && rules'[i].classification != rules'[j].classification
      ensures Disagree(rules) {
      assert rules'[i] in rules && rules'[j] in rules;
    }
  }

  lemma {:induction false} SuggestionsAreReordered(candidates: seq<Rule>, candidates': seq<Rule>)
    requires multiset(candidates) == multiset(candidates')
    ensures Suggestions(candidates) == Suggestions(candidates')
  {
    var suggests := (r: Rule) => r.mode == Suggestion;
    FilterPermutes(candidates, candidates', suggests);
    MapPermutes(Filter(candidates, suggests), Filter(candidates', suggests), (r: Rule) => r.id);
    SortIdsPermutes(RuleIds(Filter(candidates, suggests)), RuleIds(Filter(candidates', suggests)));
  }

  lemma {:induction false} AgreedClassIsReordered(best: seq<Rule>, best': seq<Rule>)
    requires multiset(best) == multiset(best') && best != [] && !Disagree(best)
    ensures best' != [] && best[0].classification == best'[0].classification
  {
    SameMembers(best, best');
    assert best'[0] in best;
    var i :| 0 <= i < |best| && best[i] == best'[0];
    assert best[0].classification == best[i].classification;
  }

  lemma {:induction false} DecisionIsReordered(candidates: seq<Rule>, candidates': seq<Rule>, schemaVersion: nat,
                            productId: Option<string>, t: TypeInfo, previous: AppClass)
    requires multiset(candidates) == multiset(candidates')
    ensures DecideByRules(candidates, schemaVersion, productId, t, previous)
            == DecideByRules(candidates', schemaVersion, productId, t, previous)
  {
    SuggestionsAreReordered(candidates, candidates');
    FilterPermutes(candidates, candidates', (r: Rule) => DecidesAutomatically(schemaVersion, productId, t, r));
    var automatic := AutomaticRules(candidates, schemaVersion, productId, t);
    var automatic' := AutomaticRules(candidates', schemaVersion, productId, t);
    BestIsReordered(automatic, automatic');
    DisagreeIsReordered(BestRules(automatic), BestRules(automatic'));
    SameMembers(BestRules(automatic), BestRules(automatic'));
    if BestRules(automatic) != [] && !Disagree(BestRules(automatic)) {
      AgreedClassIsReordered(BestRules(automatic), BestRules(automatic'));
    }
  }

  lemma {:induction false} FactsAreReordered(k: Knowledge, k': Knowledge, childId: string, ev: AppEvidence)
    requires UniqueKeys(k) && UniqueKeys(k') && Reordered(k, k')
    ensures FactsFor(k, childId, ev) == FactsFor(k', childId, ev)
  {
    IdentifyIsReordered(k.products, k'.products, ev);
    TypeIsReordered(k.products, k'.products, ev);
    var identified := IdentifyProducts(k.products, ev);
    ViewIsReordered(k.bindings, k'.bindings, childId, if |identified| == 1 then identified[0] else "");
  }

  /** Storing any of the catalogue's lists in another order changes no part of any resolution. */
  lemma {:induction false} ResolutionIsReordered(k: Knowledge, k': Knowledge, childId: string, ev: AppEvidence,
                                                 previous: AppClass)
    requires UniqueKeys(k) && UniqueKeys(k') && Reordered(k, k')
    ensures ResolveApplication(k, childId, ev, previous) == ResolveApplication(k', childId, ev, previous)
  {
    FactsAreReordered(k, k', childId, ev);
    var f := FactsFor(k, childId, ev);
    FilterPermutes(k.rules, k'.rules, (r: Rule) =>
      IsCandidate(k.schemaVersion, f.approved, f.ProductId(), f.typeInfo, ev, r));
    DecisionIsReordered(Candidates(k.rules, k.schemaVersion, f, ev), Candidates(k'.rules, k.schemaVersion, f, ev),
                        k.schemaVersion, f.ProductId(), f.typeInfo, previous);
  }
}
