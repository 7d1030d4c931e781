/** What the order of the selectors inside a product decides, and what a selector may rest on. */
module SelectorOrder {
  import opened Wrappers
  import opened Sequences
  import opened Evidence
  import opened Catalog
  import opened Decisions

  // ----- only the reason shows the order

  ghost predicate SameButOrder(p: Product, p': Product) {
    p' == p.(selectors := p'.selectors) && multiset(p.selectors) == multiset(p'.selectors)
  }

  ghost predicate SelectorsReordered(ps: seq<Product>, ps': seq<Product>) {
    |ps| == |ps'| && forall i :: 0 <= i < |ps| ==> SameButOrder(ps[i], ps'[i])
  }

  lemma {:induction false} SameIdentity(p: Product, p': Product, ev: AppEvidence)
    requires SameButOrder(p, p')
    ensures p'.id == p.id && p'.type_ == p.type_ && (Identifies(p', ev) <==> Identifies(p, ev))
  {
    hide SelectorIdentifies;
    SameMembers(p.selectors, p'.selectors);
  }

  lemma {:induction false} SameNames(ps: seq<Product>, ps': seq<Product>, ev: AppEvidence)
    requires SelectorsReordered(ps, ps')
    ensures ProductIds(Filter(ps', (p: Product) => Identifies(p, ev)))
            == ProductIds(Filter(ps, (p: Product) => Identifies(p, ev)))
  {
    hide Identifies, SameButOrder;
    if ps != [] {
      assert SameButOrder(ps[0], ps'[0]);
      SameIdentity(ps[0], ps'[0], ev);
      forall i | 0 <= i < |ps[1..]| ensures SameButOrder(ps[1..][i], ps'[1..][i]) {
        assert SameButOrder(ps[i + 1], ps'[i + 1]);
      }
      SameNames(ps[1..], ps'[1..], ev);
      var rest, rest' := Filter(ps[1..], (p: Product) => Identifies(p, ev)),
          Filter(ps'[1..], (p: Product) => Identifies(p, ev));
      MapConcat([ps[0]], rest, (p: Product) => p.id);
      MapConcat([ps'[0]], rest', (p: Product) => p.id);
    }
  }

  lemma {:induction false} SameFound(ps: seq<Product>, ps': seq<Product>, id: string)
    requires SelectorsReordered(ps, ps')
    ensures FindProduct(ps', id).Some? <==> FindProduct(ps, id).Some?
    ensures FindProduct(ps, id).Some? ==> FindProduct(ps', id).value.type_ == FindProduct(ps, id).value.type_
  {
    if ps != [] {
      assert SameButOrder(ps[0], ps'[0]);
      forall i | 0 <= i < |ps[1..]| ensures SameButOrder(ps[1..][i], ps'[1..][i]) {
        assert SameButOrder(ps[i + 1], ps'[i + 1]);
      }
      SameFound(ps[1..], ps'[1..], id);
    }
  }

  lemma {:induction false} SameFacts(k: Knowledge, k': Knowledge, childId: string, ev: AppEvidence)
    requires SelectorsReordered(k.products, k'.products) && k' == k.(products := k'.products)
    ensures var f, f' := FactsFor(k, childId, ev), FactsFor(k', childId, ev);
            WithoutReason(f'.typeInfo) == WithoutReason(f.typeInfo) && f' == f.(typeInfo := f'.typeInfo)
  {
    hide ChoiceFor, ApprovedBy, SelectorsReordered, FindProduct;
    SameNames(k.products, k'.products, ev);
    var identified := IdentifyProducts(k.products, ev);
    if |identified| == 1 {
      SameFound(k.products, k'.products, identified[0]);
    }
  }

  /** Storing the selectors of products in another order changes nothing in any resolution but the reason
      given for the type. */
  lemma {:induction false} OnlyTheReasonShows(k: Knowledge, k': Knowledge, childId: string, ev: AppEvidence,
                                              previous: AppClass)
    requires SelectorsReordered(k.products, k'.products) && k' == k.(products := k'.products)
    ensures Unexplained(ResolveApplication(k', childId, ev, previous))
            == Unexplained(ResolveApplication(k, childId, ev, previous))
  {
    hide FactsFor, ResolveFacts, SelectorsReordered;
    SameFacts(k, k', childId, ev);
    SameDecision(k.rules, k.schemaVersion, FactsFor(k, childId, ev), FactsFor(k', childId, ev), ev, previous);
  }

  // ----- when the reason shows it

  ghost predicate OneReason(p: Product, ev: AppEvidence) {
    forall s, t :: s in p.selectors && t in p.selectors && SelectorIdentifies(s, ev) && SelectorIdentifies(t, ev)
                   ==> SelectorReason(s) == SelectorReason(t)
  }

  /** The product with the selector moved to the front. */
  lemma {:induction false} MovedToFront(p: Product, s: Selector, ev: AppEvidence) returns (p': Product)
    requires s in p.selectors && SelectorIdentifies(s, ev)
    ensures SameButOrder(p, p') && ReasonFor(p', ev) == SelectorReason(s)
  {
    hide SelectorIdentifies, SelectorReason;
    var i :| 0 <= i < |p.selectors| && p.selectors[i] == s;
    var left, right := p.selectors[..i], p.selectors[i + 1..];
    assert p.selectors == left + [s] + right;
    p' := p.(selectors := [s] + left + right);
    assert p'.selectors[0] == s;
  }

  /** The reason for a product's type is independent of the order of its selectors exactly when all its
      selectors that identify the evidence give the same reason. */
  lemma {:induction false} ReasonIsStable(p: Product, ev: AppEvidence)
    ensures (forall p' :: SameButOrder(p, p') ==> ReasonFor(p', ev) == ReasonFor(p, ev)) <==> OneReason(p, ev)
  {
    hide SelectorIdentifies, SelectorReason;
    if OneReason(p, ev) {
      forall p' | SameButOrder(p, p') ensures ReasonFor(p', ev) == ReasonFor(p, ev) {
        SameMembers(p.selectors, p'.selectors);
      }
    }
    if forall p' :: SameButOrder(p, p') ==> ReasonFor(p', ev) == ReasonFor(p, ev) {
      forall s, t | s in p.selectors && t in p.selectors && SelectorIdentifies(s, ev) && SelectorIdentifies(t, ev)
        ensures SelectorReason(s) == SelectorReason(t)
      {
        var p1 := MovedToFront(p, s, ev);
        var p2 := MovedToFront(p, t, ev);
        assert SameButOrder(p, p1) && SameButOrder(p, p2);
      }
    }
  }

  /** It does depend on it when, say, a package id and a binary hash both identify the evidence. */
  lemma {:induction false} OrderCanShow()
    ensures exists p, p', ev :: SameButOrder(p, p') && ReasonFor(p, ev) != ReasonFor(p', ev)
  {
    hide SelectorIdentifies, SelectorReason;
    var ev := AppEvidence(Windows, "app", map[PackageId := "package", BinaryHash := "hash"], {PackageId, BinaryHash});
    var s, t := SelectorOf(PackageId, "package"), SelectorOf(BinaryHash, "hash");
    SelectorOfIs(PackageId, "package", ev);
    SelectorOfIs(BinaryHash, "hash", ev);
    var p, p' := Product("product", "name", OtherType, [s, t]), Product("product", "name", OtherType, [t, s]);
    assert SameButOrder(p, p');
    assert p.selectors[0] == s && p'.selectors[0] == t;
    assert ReasonFor(p, ev) != ReasonFor(p', ev);
  }

  function SelectorOf(f: Field, value: string): Selector {
    Selector(Windows, Expression(All, [Condition(f, Some(value))]))
  }

  lemma {:induction false} SelectorOfIs(f: Field, value: string, ev: AppEvidence)
    requires ev.platform == Windows && Strong(f) && f in ev.verifiedFields && ActualValue(f, ev) == Some(value)
    ensures SelectorIdentifies(SelectorOf(f, value), ev)
    ensures SelectorReason(SelectorOf(f, value))
            == if f == DistributionKey then DistributionProductRule
               else if f == PackageId then ExactPackageRule else VerifiedProductRule
  {
    hide Strong, ActualValue;
    var e := SelectorOf(f, value).match_;
    assert e.conditions[0] == Condition(f, Some(value));
  }

  // ----- what identification rests on

  /** The two reports agree wherever the first vouches for a value, and on the fields that are only hints. */
  ghost predicate AgreesOnVerified(ev: AppEvidence, ev': AppEvidence) {
    && ev.platform == ev'.platform && ev.verifiedFields == ev'.verifiedFields
    && forall f :: f in ev.verifiedFields || !Strong(f) ==> ActualValue(f, ev) == ActualValue(f, ev')
  }

  lemma {:induction false} SelectorIgnoresUnverified(s: Selector, ev: AppEvidence, ev': AppEvidence)
    requires AgreesOnVerified(ev, ev')
    ensures SelectorIdentifies(s, ev) <==> SelectorIdentifies(s, ev')
  {
    hide SafeAutomatic, ActualValue, Strong;
    assert forall c :: ConditionMatches(c, ev, true) <==> ConditionMatches(c, ev', true);
    hide ConditionMatches;
  }

  /** A claimed but unverified identity, whatever it says, never changes which products are identified. */
  lemma {:induction false} UnverifiedNeverIdentifies(products: seq<Product>, ev: AppEvidence, ev': AppEvidence)
    requires AgreesOnVerified(ev, ev')
    ensures IdentifyProducts(products, ev) == IdentifyProducts(products, ev')
  {
    hide SelectorIdentifies, AgreesOnVerified;
    forall p: Product ensures Identifies(p, ev) <==> Identifies(p, ev') {
      forall s ensures SelectorIdentifies(s, ev) <==> SelectorIdentifies(s, ev') {
        SelectorIgnoresUnverified(s, ev, ev');
      }
    }
    hide Identifies;
    FilterAgree(products, (p: Product) => Identifies(p, ev), (p: Product) => Identifies(p, ev'));
  }

  // ----- what an unverified claim can do

  predicate Excluded(r: Rule, ev: AppEvidence) { exists e :: e in r.exclude && Matches(e, ev, false) }

  /** All that a candidate needs besides not being excluded. */
  predicate Applies(schemaVersion: nat, f: Facts, ev: AppEvidence, r: Rule) {
    && r.enabled && r.id in f.approved && r.AboutPlatform(ev.platform)
    && (r.Targeted() ==> r.productId == f.ProductId())
    && (if DecidesByType(schemaVersion, r) then f.typeInfo.status == ConfirmedType && f.typeInfo.appType == r.type_
        else if r.Targeted() && r.match_.conditions == [] then true
        else Matches(r.match_, ev, r.mode == Automatic))
  }

  predicate InCandidates(schemaVersion: nat, f: Facts, ev: AppEvidence, r: Rule) {
    IsCandidate(schemaVersion, f.approved, f.ProductId(), f.typeInfo, ev, r)
  }

  lemma {:induction false} ExpressionIgnoresUnverified(e: Expression, ev: AppEvidence, ev': AppEvidence)
    requires AgreesOnVerified(ev, ev')
    ensures Matches(e, ev, true) <==> Matches(e, ev', true)
  {
    hide ActualValue, Strong;
    assert forall c :: ConditionMatches(c, ev, true) <==> ConditionMatches(c, ev', true);
    hide ConditionMatches;
  }

  /** An unverified claim changes whether an automatic rule is a candidate exactly when the rule applies and
      the claim changes whether it is excluded. */
  lemma {:induction false} RuleIgnoresUnverified(schemaVersion: nat, f: Facts, ev: AppEvidence, ev': AppEvidence,
                                                 r: Rule)
    requires AgreesOnVerified(ev, ev') && r.mode == Automatic
    ensures (InCandidates(schemaVersion, f, ev, r) <==> InCandidates(schemaVersion, f, ev', r))
            <==> !Applies(schemaVersion, f, ev, r) || (Excluded(r, ev) <==> Excluded(r, ev'))
  {
    ExpressionIgnoresUnverified(r.match_, ev, ev');
    hide Matches;
  }

  lemma {:induction false} FactsIgnoreUnverified(k: Knowledge, child: string, ev: AppEvidence, ev': AppEvidence)
    requires AgreesOnVerified(ev, ev')
    ensures FactsFor(k, child, ev) == FactsFor(k, child, ev')
  {
    hide AgreesOnVerified, SelectorIdentifies, IdentifyProducts, FindProduct, ChoiceFor, ApprovedBy, SelectorReason;
    UnverifiedNeverIdentifies(k.products, ev, ev');
    forall p: Product ensures ReasonFor(p, ev) == ReasonFor(p, ev') {
      forall s ensures SelectorIdentifies(s, ev) <==> SelectorIdentifies(s, ev') {
        SelectorIgnoresUnverified(s, ev, ev');
      }
      FindAgree(p.selectors, (s: Selector) => SelectorIdentifies(s, ev), (s: Selector) => SelectorIdentifies(s, ev'));
    }
  }

  lemma {:induction false} AutomaticIgnoresUnverified(rules: seq<Rule>, schemaVersion: nat, f: Facts, ev: AppEvidence,
                                                      ev': AppEvidence)
    requires AgreesOnVerified(ev, ev')
    requires forall r :: r in rules && r.mode == Automatic ==> (Excluded(r, ev) <==> Excluded(r, ev'))
    ensures AutomaticRules(Candidates(rules, schemaVersion, f, ev), schemaVersion, f.ProductId(), f.typeInfo)
            == AutomaticRules(Candidates(rules, schemaVersion, f, ev'), schemaVersion, f.ProductId(), f.typeInfo)
  {
    hide AgreesOnVerified, Excluded, SafeAutomatic;
    var decides := (r: Rule) => DecidesAutomatically(schemaVersion, f.ProductId(), f.typeInfo, r);
    var here := (r: Rule) => IsCandidate(schemaVersion, f.approved, f.ProductId(), f.typeInfo, ev, r);
    var there := (r: Rule) => IsCandidate(schemaVersion, f.approved, f.ProductId(), f.typeInfo, ev', r);
    var both := (r: Rule) => here(r) && decides(r);
    var both' := (r: Rule) => there(r) && decides(r);
    FilterBoth(rules, here, decides, both);
    FilterBoth(rules, there, decides, both');
    forall r | r in rules ensures both(r) == both'(r) {
      if r.mode == Automatic {
        RuleIgnoresUnverified(schemaVersion, f, ev, ev', r);
      }
    }
    FilterAgree(rules, both, both');
  }

  lemma {:induction false} FilterBoth<T>(s: seq<T>, p: T -> bool, q: T -> bool, both: T -> bool)
    requires forall x :: x in s ==> both(x) == (p(x) && q(x))
    ensures Filter(Filter(s, p), q) == Filter(s, both)
  {
    if s != [] {
      FilterBoth(s[1..], p, q, both);
    }
  }

  predicate Decided(r: Resolution) { r.status in {Explicit, AutomaticStatus, Conflict} }

  /** An unverified claim acts on a decision through the exclusions of automatic rules alone: when it changes
      none of their verdicts, it changes nothing of the decision but the suggestions listed beside it. */
  lemma {:induction false} ClaimsActThroughExclusions(k: Knowledge, child: string, ev: AppEvidence, ev': AppEvidence,
                                                      previous: AppClass)
    requires AgreesOnVerified(ev, ev')
    requires forall r :: r in k.rules && r.mode == Automatic ==> (Excluded(r, ev) <==> Excluded(r, ev'))
    ensures var r, r' := ResolveApplication(k, child, ev, previous), ResolveApplication(k, child, ev', previous);
            && (Decided(r) <==> Decided(r'))
            && (Decided(r) ==> r' == r.(suggestions := r'.suggestions))
  {
    hide AgreesOnVerified, Excluded, FactsFor, AutomaticRules, Candidates, Suggestions, BestRules, Disagree;
    FactsIgnoreUnverified(k, child, ev, ev');
    AutomaticIgnoresUnverified(k.rules, k.schemaVersion, FactsFor(k, child, ev), ev, ev');
  }

  // ----- a claim that acts

  const VERIFIED := AppEvidence(Windows, "app", map[BinaryHash := "hash"], {BinaryHash})

  const CLAIMED := AppEvidence(Windows, "app", map[BinaryHash := "hash", PackageId := "claim"], {BinaryHash})

  function OneCondition(f: Field, value: string): Expression { Expression(All, [Condition(f, Some(value))]) }

  const BLOCKS := Rule("rule", ProductKind, None, None, OneCondition(BinaryHash, "hash"),
                       [OneCondition(PackageId, "claim")],
                       Automatic, Blocked, UnknownType, true)

  const ONE_RULE := Knowledge(1, 1, [], [BLOCKS], [Binding("child", [], ["rule"])])

  lemma {:induction false} OneConditionIs(f: Field, value: string, ev: AppEvidence, requireVerified: bool)
    requires f != RuntimeIdentity
    ensures Matches(OneCondition(f, value), ev, requireVerified)
            <==> f in ev.values && ev.values[f] == value && (requireVerified && Strong(f) ==> f in ev.verifiedFields)
  {
    hide Strong;
    var e, c := OneCondition(f, value), Condition(f, Some(value));
    assert e.conditions[0] == c;
    assert forall x :: x in e.conditions <==> x == c;
    assert Matches(e, ev, requireVerified) <==> ConditionMatches(c, ev, requireVerified);
  }

  lemma {:induction false} NoProductFacts(ev: AppEvidence)
    ensures FactsFor(ONE_RULE, "child", ev) == Facts([], UNKNOWN_TYPE, None, {"rule"})
  {
    assert ["rule"][0] == "rule";
    assert |IdentifyProducts([], ev)| == |multiset(IdentifyProducts([], ev))| == 0;
  }

  lemma {:induction false} OneRuleDecides(ev: AppEvidence)
    ensures var r := ResolveApplication(ONE_RULE, "child", ev, Unclassified);
            r.classification
            == if InCandidates(1, Facts([], UNKNOWN_TYPE, None, {"rule"}), ev, BLOCKS) then Blocked else Unclassified
  {
    hide IsCandidate, FactsFor, BestRules, Suggestions, SafeAutomatic, Disagree;
    var f := Facts([], UNKNOWN_TYPE, None, {"rule"});
    NoProductFacts(ev);
    OneRuleIsSafe();
    var candidates := Candidates(ONE_RULE.rules, 1, f, ev);
    assert ONE_RULE.rules[1..] == [];
    assert candidates == if InCandidates(1, f, ev, BLOCKS) then [BLOCKS] else [];
    OneBest();
  }

  lemma {:induction false} OneRuleIsSafe()
    ensures SafeAutomatic(BLOCKS.match_)
  {
    assert BLOCKS.match_.conditions[0] == Condition(BinaryHash, Some("hash"));
  }

  lemma {:induction false} OneBest()
    ensures BestRules([BLOCKS]) == [BLOCKS] && BestRules([]) == [] && !Disagree([BLOCKS])
    ensures Suggestions([BLOCKS]) == [] && Suggestions([]) == []
    ensures AutomaticRules([BLOCKS], 1, None, UNKNOWN_TYPE) == [BLOCKS]
  {
    OneRuleIsSafe();
    assert [BLOCKS][1..] == [];
    assert |Suggestions([BLOCKS])| == |multiset(Suggestions([BLOCKS]))| == 0;
    assert |Suggestions([])| == |multiset(Suggestions([]))| == 0;
  }

  /** And it can act there: a claimed package id that nothing vouches for switches off a rule for a verified
      binary, and with it the block. */
  lemma {:induction false} ClaimSwitchesOffRule()
    ensures AgreesOnVerified(VERIFIED, CLAIMED)
    ensures ResolveApplication(ONE_RULE, "child", VERIFIED, Unclassified).classification == Blocked
    ensures ResolveApplication(ONE_RULE, "child", CLAIMED, Unclassified).classification == Unclassified
  {
    hide Matches, ResolveApplication;
    OneRuleDecides(VERIFIED);
    OneRuleDecides(CLAIMED);
    OneConditionIs(BinaryHash, "hash", VERIFIED, true);
    OneConditionIs(PackageId, "claim", VERIFIED, false);
    OneConditionIs(PackageId, "claim", CLAIMED, false);
    assert BLOCKS.exclude[0] in BLOCKS.exclude;
  }
}
