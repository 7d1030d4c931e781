/** The decision for one application, case by case, in terms of the catalogue, the child and the evidence. */
module ResolutionCases {
  import opened Wrappers
  import opened Sequences
  import opened Ordering
  import opened Evidence
  import opened Catalog
  import opened OrderIndependence

  // ----- expressions

  /** The evidence gives the field exactly this value, or none when none is asked for. */
  predicate Gives(ev: AppEvidence, c: Condition) {
    match c.value
    case Some(value) =>
      if c.field == RuntimeIdentity then ev.runtimeIdentity == value
      else c.field in ev.values && ev.values[c.field] == value
    case None => c.field != RuntimeIdentity && c.field !in ev.values
  }

  /** Fields that say something about software but do not identify it. */
  predicate Hint(f: Field) { f in {ProductName, DeclaredType, InstallationSource} }

  predicate Supports(ev: AppEvidence, c: Condition, verified: bool) {
    Gives(ev, c) && (verified ==> Hint(c.field) || c.field in ev.verifiedFields)
  }

  /** All of the conditions hold, or any, as the expression asks; an expression without one never holds. */
  predicate Holds(e: Expression, ev: AppEvidence, verified: bool) {
    || (e.operator == All && e.conditions != [] && forall c :: c in e.conditions ==> Supports(ev, c, verified))
    || (e.operator == Any && exists c :: c in e.conditions && Supports(ev, c, verified))
  }

  /** The expression cannot hold by hints alone. */
  predicate Firm(e: Expression) {
    || (e.operator == All && exists c :: c in e.conditions && !Hint(c.field))
    || (e.operator == Any && e.conditions != [] && forall c :: c in e.conditions ==> !Hint(c.field))
  }

  lemma {:induction false} ExpressionIs(e: Expression, ev: AppEvidence, verified: bool)
    ensures Matches(e, ev, verified) <==> Holds(e, ev, verified)
    ensures SafeAutomatic(e) <==> Firm(e)
  {
    hide Strong, Hint, ConditionMatches, Supports;
    forall f ensures Strong(f) <==> !Hint(f) {
      StrongIs(f);
    }
    forall c ensures ConditionMatches(c, ev, verified) <==> Supports(ev, c, verified) {
      ConditionIs(c, ev, verified);
    }
  }

  lemma {:induction false} StrongIs(f: Field)
    ensures Strong(f) <==> !Hint(f)
  {
  }

  lemma {:induction false} ConditionIs(c: Condition, ev: AppEvidence, verified: bool)
    ensures ConditionMatches(c, ev, verified) <==> Supports(ev, c, verified)
  {
    hide Strong, Hint;
    StrongIs(c.field);
  }

  /** Evidence identifies a product exactly by a selector of its platform that cannot hold by hints alone and
      holds of what is verified; the list of products is ascending. */
  lemma {:induction false} IdentificationIs(products: seq<Product>, ev: AppEvidence, id: string)
    ensures id in IdentifyProducts(products, ev)
            <==> exists p, s :: p in products && p.id == id && s in p.selectors && s.platform == ev.platform
                                && Firm(s.match_) && Holds(s.match_, ev, true)
    ensures SortedBy(IdentifyProducts(products, ev), AtMost)
  {
    hide Matches, SafeAutomatic, Holds, Firm, IdentifyProducts;
    IdentifiedAre(products, ev, id);
    forall s: Selector
      ensures SelectorIdentifies(s, ev) <==> s.platform == ev.platform && Firm(s.match_) && Holds(s.match_, ev, true)
    {
      ExpressionIs(s.match_, ev, true);
    }
    hide SelectorIdentifies;
    IdentifiedIsSorted(products, ev);
  }

  lemma {:induction false} IdentifiedIsSorted(products: seq<Product>, ev: AppEvidence)
    ensures SortedBy(IdentifyProducts(products, ev), AtMost)
  {
    AtMostIsTotal();
    SortSorts(ProductIds(Filter(products, (p: Product) => Identifies(p, ev))), AtMost);
  }

  // ----- rules

  /** A product rule is stronger than any other and a type rule weaker than any other; family and developer
      rules weigh the same. */
  predicate Stronger(a: RuleKind, b: RuleKind) { (a == ProductKind && b != ProductKind)
                                                || (a != TypeKind && b == TypeKind) }

  lemma {:induction false} RanksAre(a: RuleKind, b: RuleKind)
    ensures Rank(a) < Rank(b) <==> Stronger(a, b)
  {
  }

  ghost predicate OnlyProduct(k: Knowledge, ev: AppEvidence, p: Product) {
    IdentifyProducts(k.products, ev) == [p.id] && FindProduct(k.products, p.id) == Some(p)
  }

  predicate ByTypeAlone(k: Knowledge, r: Rule) {
    k.schemaVersion > 1 && r.kind == TypeKind && r.match_.conditions == []
  }

  predicate About(r: Rule, id: string) { id != "" && r.productId == Some(id) }

  /** What the rule asks of the evidence. */
  ghost predicate Asks(k: Knowledge, ev: AppEvidence, r: Rule) {
    if ByTypeAlone(k, r) then exists p :: OnlyProduct(k, ev, p) && p.type_ == r.type_ && r.type_ != UnknownType
    else (r.match_.conditions == [] && exists id :: About(r, id)) || Holds(r.match_, ev, r.mode == Automatic)
  }

  /** The rule speaks about the evidence for the child. */
  ghost predicate Speaks(k: Knowledge, child: string, ev: AppEvidence, r: Rule) {
    && r in k.rules && r.enabled && r.id in ApprovedBy(k.bindings, child)
    && (r.platform == None || r.platform == Some(ev.platform))
    && (forall id :: About(r, id) ==> IdentifyProducts(k.products, ev) == [id])
    && Asks(k, ev, r)
    && (forall e :: e in r.exclude ==> !Holds(e, ev, false))
  }

  ghost predicate Suggests(k: Knowledge, child: string, ev: AppEvidence, r: Rule) {
    Speaks(k, child, ev, r) && r.mode == Suggestion
  }

  /** An automatic rule that is about no product and not decided by the type must not rest on hints alone. */
  ghost predicate Acts(k: Knowledge, child: string, ev: AppEvidence, r: Rule) {
    Speaks(k, child, ev, r) && r.mode == Automatic
        && (ByTypeAlone(k, r) || (exists id :: About(r, id)) || Firm(r.match_))
  }

  ghost predicate Wins(k: Knowledge, child: string, ev: AppEvidence, r: Rule) {
    Acts(k, child, ev, r) && forall q :: Acts(k, child, ev, q) ==> !Stronger(q.kind, r.kind)
  }

  function CandidatesFor(k: Knowledge, child: string, ev: AppEvidence): seq<Rule> {
    Candidates(k.rules, k.schemaVersion, FactsFor(k, child, ev), ev)
  }

  function AutomaticFor(k: Knowledge, child: string, ev: AppEvidence): seq<Rule> {
    var f := FactsFor(k, child, ev);
    AutomaticRules(CandidatesFor(k, child, ev), k.schemaVersion, f.ProductId(), f.typeInfo)
  }

  lemma {:induction false} TypeFactIs(k: Knowledge, child: string, ev: AppEvidence, t: AppType)
    ensures var info := FactsFor(k, child, ev).typeInfo;
            info.status == ConfirmedType && info.appType == t
            <==> exists p :: OnlyProduct(k, ev, p) && p.type_ == t && t != UnknownType
  {
    hide IdentifyProducts, ReasonFor, ChoiceFor, ApprovedBy;
    var identified := IdentifyProducts(k.products, ev);
    if |identified| == 1 {
      assert identified == [identified[0]];
      if FindProduct(k.products, identified[0]).Some? {
        var p := FindProduct(k.products, identified[0]).value;
        assert OnlyProduct(k, ev, p);
      }
    }
    forall p | OnlyProduct(k, ev, p) ensures identified[0] == p.id {
    }
  }

  lemma {:induction false} SpeakersAre(k: Knowledge, child: string, ev: AppEvidence, r: Rule)
    ensures r in CandidatesFor(k, child, ev) <==> Speaks(k, child, ev, r)
  {
    hide Matches, Holds, IdentifyProducts, ChoiceFor, ApprovedBy, ResolveProductType, OnlyProduct;
    ExpressionIs(r.match_, ev, r.mode == Automatic);
    TypeFactIs(k, child, ev, r.type_);
    forall e | e in r.exclude ensures Matches(e, ev, false) <==> Holds(e, ev, false) {
      ExpressionIs(e, ev, false);
    }
    assert r.Targeted() <==> exists id :: About(r, id) by {
      if r.Targeted() {
        assert About(r, r.productId.value);
      }
    }
  }

  lemma {:induction false} ActorsAre(k: Knowledge, child: string, ev: AppEvidence, r: Rule)
    ensures r in AutomaticFor(k, child, ev) <==> Acts(k, child, ev, r)
  {
    hide Matches, Holds, IdentifyProducts, ChoiceFor, ApprovedBy, ResolveProductType, OnlyProduct, SafeAutomatic, Firm,
         Candidates;
    SpeakersAre(k, child, ev, r);
    ExpressionIs(r.match_, ev, true);
    TypeFactIs(k, child, ev, r.type_);
    assert r.Targeted() <==> exists id :: About(r, id) by {
      if r.Targeted() {
        assert About(r, r.productId.value);
      }
    }
  }

  /** The strongest acting rules decide. */
  lemma {:induction false} WinnersAre(k: Knowledge, child: string, ev: AppEvidence, r: Rule)
    ensures r in BestRules(AutomaticFor(k, child, ev)) <==> Wins(k, child, ev, r)
  {
    hide AutomaticFor, Acts, BestRules, Rank, Stronger;
    var n := BestRulesAre(AutomaticFor(k, child, ev));
    var best := BestRules(AutomaticFor(k, child, ev));
    forall q ensures q in AutomaticFor(k, child, ev) <==> Acts(k, child, ev, q) {
      ActorsAre(k, child, ev, q);
    }
    forall q, s ensures Rank(q) < Rank(s) <==> Stronger(q, s) {
      RanksAre(q, s);
    }
    if Wins(k, child, ev, r) {
      assert best[0] in best;
    }
  }

  // ----- the decision

  ghost predicate Undecided(k: Knowledge, child: string, ev: AppEvidence) {
    var identified := IdentifyProducts(k.products, ev);
    |identified| == 0 || (|identified| == 1 && ChoiceFor(k.bindings, child, identified[0]).None?)
  }

  /** Several products are a conflict, and the class stays what it was; a choice of the child for the one
      product decides. */
  lemma {:induction false} IdentityDecides(k: Knowledge, child: string, ev: AppEvidence, previous: AppClass)
    ensures var identified := IdentifyProducts(k.products, ev);
            var r := ResolveApplication(k, child, ev, previous);
            && (|identified| > 1 ==> r == Resolution(None, previous, Conflict, [], [], r.typeInfo))
            && (|identified| == 1 && ChoiceFor(k.bindings, child, identified[0]).Some? ==>
                  r == Resolution(Some(identified[0]), ChoiceFor(k.bindings, child, identified[0]).value.classification,
                                  Explicit,
                                  [], [], r.typeInfo))
            && (Undecided(k, child, ev) ==> r.productId == if |identified| == 1 then Some(identified[0]) else None)
  {
    hide IdentifyProducts, ChoiceFor, ApprovedBy, ResolveProductType, Candidates, Suggestions, BestRules,
         AutomaticRules;
  }

  lemma {:induction false} UndecidedAsksRules(k: Knowledge, child: string, ev: AppEvidence, previous: AppClass)
    requires Undecided(k, child, ev)
    ensures var f := FactsFor(k, child, ev);
            ResolveApplication(k, child, ev, previous)
            == DecideByRules(CandidatesFor(k, child, ev), k.schemaVersion, f.ProductId(), f.typeInfo, previous)
  {
    hide IdentifyProducts, ChoiceFor, ApprovedBy, ResolveProductType, Candidates, DecideByRules;
  }

  lemma {:induction false} DisagreeIs(rules: seq<Rule>)
    ensures Disagree(rules) <==> exists q, s :: q in rules && s in rules && q.classification != s.classification
  {
    forall q, s | q in rules && s in rules && q.classification != s.classification ensures Disagree(rules) {
      var i :| 0 <= i < |rules| && rules[i] == q;
      var j :| 0 <= j < |rules| && rules[j] == s;
    }
    forall i, j | 0 <= i < |rules| && 0 <= j < |rules| && rules[i].classification != rules[j].classification
      ensures rules[i] in rules && rules[j] in rules
    {
    }
  }

  lemma {:induction false} DecisionShape(candidates: seq<Rule>, schemaVersion: nat, productId: Option<string>,
                                         t: TypeInfo, previous: AppClass)
    ensures var best := BestRules(AutomaticRules(candidates, schemaVersion, productId, t));
            var r := DecideByRules(candidates, schemaVersion, productId, t, previous);
            && (best != [] && Disagree(best) ==> r.status == Conflict && r.classification == previous)
            && (best != [] && !Disagree(best) ==>
                  r.status == AutomaticStatus && r.classification == best[0].classification)
            && (best == [] && Suggestions(candidates) != [] ==>
                  r.status == SuggestionStatus && r.classification == previous)
            && (best == [] && Suggestions(candidates) == [] ==>
                  r.status == NotClassified && r.classification == Unclassified)
  {
    hide AutomaticRules, BestRules, Disagree, Suggestions;
  }

  /** Otherwise the strongest acting rules decide if they agree, and leave the class as it was if they do not.
      Without one, a suggestion leaves the class as it was, and nothing is unclassified. */
  lemma {:induction false} RulesDecide(k: Knowledge, child: string, ev: AppEvidence, previous: AppClass)
    requires Undecided(k, child, ev)
    ensures var r := ResolveApplication(k, child, ev, previous);
            && (forall q, s :: Wins(k, child, ev, q) && Wins(k, child, ev, s)
                               && q.classification != s.classification ==>
                  r.status == Conflict && r.classification == previous)
            && (forall q :: Wins(k, child, ev, q) ==>
                  || (r.status == AutomaticStatus && r.classification == q.classification)
                  || (r.status == Conflict && exists s :: Wins(k, child, ev, s)
                                                  && s.classification != q.classification))
            && ((forall q :: !Wins(k, child, ev, q)) && (exists q :: Suggests(k, child, ev, q)) ==>
                  r.status == SuggestionStatus && r.classification == previous)
            && ((forall q :: !Wins(k, child, ev, q) && !Suggests(k, child, ev, q)) ==>
                  r.status == NotClassified && r.classification == Unclassified)
  {
    hide ResolveApplication, FactsFor, Undecided, Wins, Speaks, CandidatesFor, AutomaticRules, BestRules, Disagree,
         Suggestions, DecideByRules, Suggests;
    UndecidedAsksRules(k, child, ev, previous);
    var f := FactsFor(k, child, ev);
    var best := BestRules(AutomaticFor(k, child, ev));
    DecisionShape(CandidatesFor(k, child, ev), k.schemaVersion, f.ProductId(), f.typeInfo, previous);
    DisagreeIs(best);
    assert best != [] ==> best[0] in best;
    forall q ensures q in best <==> Wins(k, child, ev, q) {
      WinnersAre(k, child, ev, q);
    }
    SuggestionsListed(k, child, ev);
  }

  lemma {:induction false} SuggestionsListed(k: Knowledge, child: string, ev: AppEvidence)
    ensures forall id :: id in Suggestions(CandidatesFor(k, child, ev))
                <==> exists q :: Suggests(k, child, ev, q) && q.id == id
    ensures SortedBy(Suggestions(CandidatesFor(k, child, ev)), AtMost)
    ensures Suggestions(CandidatesFor(k, child, ev)) != [] <==> exists q :: Suggests(k, child, ev, q)
  {
    hide Speaks, CandidatesFor;
    var suggesting := Filter(CandidatesFor(k, child, ev), (r: Rule) => r.mode == Suggestion);
    forall q ensures q in suggesting <==> Suggests(k, child, ev, q) {
      SpeakersAre(k, child, ev, q);
    }
    MapMembers(suggesting, (r: Rule) => r.id);
    SameMembers(RuleIds(suggesting), SortIds(RuleIds(suggesting)));
    AtMostIsTotal();
    SortSorts(RuleIds(suggesting), AtMost);
    if suggesting != [] {
      assert suggesting[0] in suggesting;
    }
  }

  /** The rules that decided, or disagreed, are listed by id, and so are the suggestions, both ascending. */
  lemma {:induction false} RulesAreListed(k: Knowledge, child: string, ev: AppEvidence, previous: AppClass)
    requires Undecided(k, child, ev)
    ensures var r := ResolveApplication(k, child, ev, previous);
            && (forall id :: id in r.ruleIds <==> exists q :: Wins(k, child, ev, q) && q.id == id)
            && (forall id :: id in r.suggestions <==> exists q :: Suggests(k, child, ev, q) && q.id == id)
            && SortedBy(r.ruleIds, AtMost) && SortedBy(r.suggestions, AtMost)
  {
    hide ResolveApplication, FactsFor, Undecided, Wins, Speaks, CandidatesFor, AutomaticRules, BestRules, Disagree,
         Suggestions;
    UndecidedAsksRules(k, child, ev, previous);
    var best := BestRules(AutomaticFor(k, child, ev));
    var n := BestRulesAre(AutomaticFor(k, child, ev));
    forall q ensures q in best <==> Wins(k, child, ev, q) {
      WinnersAre(k, child, ev, q);
    }
    MapMembers(best, (r: Rule) => r.id);
    SuggestionsListed(k, child, ev);
  }

  // ----- the type beside the decision

  ghost predicate AsksAbout(s: Selector, f: Field) { exists c :: c in s.match_.conditions && c.field == f }

  /** The selector is the first one of the product that identifies the evidence. */
  ghost predicate FirstSelector(p: Product, ev: AppEvidence, i: int) {
    && 0 <= i < |p.selectors| && SelectorIdentifies(p.selectors[i], ev)
    && forall j :: 0 <= j < i ==> !SelectorIdentifies(p.selectors[j], ev)
  }

  lemma {:induction false} FirstIsFound(s: seq<Selector>, p: Selector -> bool, i: int)
    requires 0 <= i < |s| && p(s[i]) && forall j :: 0 <= j < i ==> !p(s[j])
    ensures Find(s, p) == Some(s[i])
  {
    if i > 0 {
      FirstIsFound(s[1..], p, i - 1);
    }
  }

  /** The type of the one identified product is confirmed unless it is unknown, for the reason that its first
      identifying selector gives: a distribution key before a package id before anything else. */
  lemma {:induction false} TypeIs(k: Knowledge, child: string, ev: AppEvidence, previous: AppClass)
    ensures var t := ResolveApplication(k, child, ev, previous).typeInfo;
            && (forall p, i :: OnlyProduct(k, ev, p) && p.type_ != UnknownType && FirstSelector(p, ev, i) ==>
                  && t.appType == p.type_ && t.status == ConfirmedType
                  && (t.reason == DistributionProductRule <==> AsksAbout(p.selectors[i], DistributionKey))
                  && (t.reason == ExactPackageRule
                      <==> AsksAbout(p.selectors[i], PackageId) && !AsksAbout(p.selectors[i], DistributionKey))
                  && t.reason != NoReason)
            && ((forall p :: OnlyProduct(k, ev, p) ==> p.type_ == UnknownType) ==>
                  t == TypeInfo(UnknownType, UnconfirmedType, NoReason))
  {
    hide IdentifyProducts, ChoiceFor, ApprovedBy, Candidates, Suggestions, BestRules, AutomaticRules,
         SelectorIdentifies,
         FindProduct;
    TypeOfResolution(k, child, ev, previous);
    var identified := IdentifyProducts(k.products, ev);
    if |identified| == 1 {
      assert identified == [identified[0]];
      if FindProduct(k.products, identified[0]).Some? {
        FoundHasId(k.products, identified[0]);
        assert OnlyProduct(k, ev, FindProduct(k.products, identified[0]).value);
      }
    }
    forall p, i | OnlyProduct(k, ev, p) && FirstSelector(p, ev, i)
      ensures identified[0] == p.id && Find(p.selectors, (s: Selector) => SelectorIdentifies(s, ev))
              == Some(p.selectors[i])
    {
      FirstIsFound(p.selectors, (s: Selector) => SelectorIdentifies(s, ev), i);
    }
  }

  lemma {:induction false} FoundHasId(products: seq<Product>, id: string)
    ensures FindProduct(products, id).Some? ==> FindProduct(products, id).value.id == id
  {
  }

  lemma {:induction false} TypeOfResolution(k: Knowledge, child: string, ev: AppEvidence, previous: AppClass)
    ensures ResolveApplication(k, child, ev, previous).typeInfo == ResolveProductType(k.products, ev)
  {
    hide IdentifyProducts, ChoiceFor, ApprovedBy, Candidates, Suggestions, BestRules, AutomaticRules,
         ResolveProductType;
  }
}
