/** Which children and which evidence an edit can reach. */
module Children {
  import opened Wrappers
  import opened Sequences
  import opened Text
  import opened Evidence
  import opened Catalog
  import opened Editing
  import opened EditingFacts
  import opened OrderIndependence

  // ----- revising a rule

  lemma {:induction false} ReapprovedBindings(bindings: seq<Binding>, childIds: seq<string>, oldId: Option<string>,
                                              newId: string, child: string)
    ensures child !in childIds
            ==> FindBinding(ReapproveFor(bindings, childIds, oldId, newId), child) == FindBinding(bindings, child)
    ensures forall p :: ChoiceFor(ReapproveFor(bindings, childIds, oldId, newId), child, p)
                == ChoiceFor(bindings, child, p)
    ensures child in childIds
            ==> ApprovedBy(ReapproveFor(bindings, childIds, oldId, newId), child)
                == ApprovedBy(bindings, child) - (if oldId.Some? then {oldId.value} else {}) + {newId}
  {
    hide WithBinding, FindBinding;
    if childIds != [] {
      var init, last := childIds[..|childIds| - 1], childIds[|childIds| - 1];
      assert child in childIds <==> child in init || child == last;
      ReapprovedBindings(bindings, init, oldId, newId, child);
      UpdatedBinding(ReapproveFor(bindings, init, oldId, newId), last, (b: Binding) => Reapproved(b, oldId, newId),
                     child);
    }
  }

  lemma {:induction false} UnapprovedRule(rules: seq<Rule>, rule: Rule, schemaVersion: nat, f: Facts, ev: AppEvidence)
    requires rule.id !in f.approved
    ensures Candidates(rules + [rule], schemaVersion, f, ev) == Candidates(rules, schemaVersion, f, ev)
  {
    FilterSnoc(rules, rule, (r: Rule) => IsCandidate(schemaVersion, f.approved, f.ProductId(), f.typeInfo, ev, r));
  }

  /** In a well-formed catalogue nobody has approved a rule that does not exist yet. */
  lemma {:induction false} FreshRuleIsUnapproved(k: Knowledge, ruleId: string, child: string)
    requires WellFormed(k) && ruleId !in RuleIdSet(k.rules)
    ensures ruleId !in ApprovedBy(k.bindings, child)
  {
    hide ValidProducts, ValidRules, Distinct, ValidChoice, RuleIdSet;
  }

  /** Revising a rule for some children changes no decision of any other child. */
  lemma {:induction false} ReviseLeavesOthers(k: Knowledge, rule: Rule, childIds: seq<string>, oldId: Option<string>,
                                              child: string, ev: AppEvidence, previous: AppClass)
    requires child !in childIds && rule.id !in ApprovedBy(k.bindings, child)
    ensures ResolveApplication(Revised(k, rule, childIds, oldId), child, ev, previous)
            == ResolveApplication(k, child, ev, previous)
  {
    ReapprovedBindings(k.bindings, childIds, oldId, rule.id, child);
    hide IdentifyProducts, ResolveProductType, Candidates, DecideByRules, ReapproveFor, FindBinding, FindChoice;
    UnapprovedRule(k.rules, rule, k.schemaVersion, FactsFor(k, child, ev), ev);
  }

  /** For a chosen child the new rule takes the place of the old one, and its product choices stay. */
  lemma {:induction false} ReviseReapproves(k: Knowledge, rule: Rule, childIds: seq<string>, oldId: Option<string>,
                                            child: string, productId: string)
    requires child in childIds
    ensures ApprovedBy(Revised(k, rule, childIds, oldId).bindings, child)
            == ApprovedBy(k.bindings, child) - (if oldId.Some? then {oldId.value} else {}) + {rule.id}
    ensures ChoiceFor(Revised(k, rule, childIds, oldId).bindings, child, productId)
            == ChoiceFor(k.bindings, child, productId)
  {
    ReapprovedBindings(k.bindings, childIds, oldId, rule.id, child);
  }

  // ----- toggling an approval

  lemma {:induction false} ToggleReaches(k: Knowledge, k': Knowledge, rule: Rule, ruleId: string, childId: string,
                                         freshId: string, child: string, productId: string)
    requires FindRule(k.rules, ruleId) == Some(rule) && ToggleApproval(k, ruleId, childId, freshId) == Success(k')
    ensures k'.products == k.products && k'.schemaVersion == k.schemaVersion
    ensures k'.rules == if rule.enabled then k.rules else k.rules + [rule.(id := freshId, enabled := true)]
    ensures ChoiceFor(k'.bindings, child, productId) == ChoiceFor(k.bindings, child, productId)
    ensures var was := ApprovedBy(k.bindings, child);
            ApprovedBy(k'.bindings, child)
            == if child != childId then was
               else if !rule.enabled then was - {ruleId} + {freshId}
               else if ruleId in was then was - {ruleId}
               else was + {ruleId}
  {
    UpdatedBinding(k.bindings, childId, (b: Binding) => Toggled(b, rule, freshId), child);
  }

  /** Toggling an approval for one child changes no decision of any other child. */
  lemma {:induction false} ToggleLeavesOthers(k: Knowledge, k': Knowledge, ruleId: string, childId: string,
                                              freshId: string, child: string, ev: AppEvidence, previous: AppClass)
    requires ToggleApproval(k, ruleId, childId, freshId) == Success(k')
    requires child != childId && freshId !in ApprovedBy(k.bindings, child)
    ensures ResolveApplication(k', child, ev, previous) == ResolveApplication(k, child, ev, previous)
  {
    var rule := FindRule(k.rules, ruleId).value;
    var identified := IdentifyProducts(k.products, ev);
    ToggleReaches(k, k', rule, ruleId, childId, freshId, child, if |identified| == 1 then identified[0] else "");
    hide IdentifyProducts, ResolveProductType, Candidates, DecideByRules, ToggleApproval, ChoiceFor, ApprovedBy,
         FindRule;
    UnapprovedRule(k.rules, rule.(id := freshId, enabled := true), k.schemaVersion, FactsFor(k, child, ev), ev);
  }

  /** Toggling an enabled rule twice gives every child its old decisions back. */
  lemma {:induction false} ToggleTwiceRestores(k: Knowledge, k': Knowledge, k'': Knowledge, ruleId: string,
                                               childId: string, freshId: string, freshId': string, child: string,
                                               ev: AppEvidence, previous: AppClass)
    requires FindRule(k.rules, ruleId).Some? && FindRule(k.rules, ruleId).value.enabled
    requires ToggleApproval(k, ruleId, childId, freshId) == Success(k')
    requires ToggleApproval(k', ruleId, childId, freshId') == Success(k'')
    ensures ResolveApplication(k'', child, ev, previous) == ResolveApplication(k, child, ev, previous)
  {
    hide IdentifyProducts, ResolveProductType, ResolveFacts, ToggleApproval, ChoiceFor, ApprovedBy, FindRule;
    var rule := FindRule(k.rules, ruleId).value;
    var identified := IdentifyProducts(k.products, ev);
    var productId := if |identified| == 1 then identified[0] else "";
    ToggleReaches(k, k', rule, ruleId, childId, freshId, child, productId);
    ToggleReaches(k', k'', rule, ruleId, childId, freshId', child, productId);
    assert ApprovedBy(k''.bindings, child) == ApprovedBy(k.bindings, child);
  }

  // ----- classifying

  lemma {:induction false} ChosenFor(b: Binding, productId: string, classification: AppClass, other: string)
    ensures var c := FindChoice(Chosen(b, productId, classification).products, other);
            if other != productId then c == FindChoice(b.products, other)
            else c.Some? && c.value.classification == classification
                 && (c.value.enhancedBlocking ==> classification == Blocked)
  {
    var wanted := (c: Choice) => c.productId == other;
    var last := Chosen(b, productId, classification).products[|Others(b.products, productId)|];
    FindConcat(Others(b.products, productId), [last], wanted);
    if other != productId {
      FindAfterFilter(b.products, (c: Choice) => c.productId != productId, wanted);
    }
  }

  /** Classifying a product for some children changes one choice of each and nothing else. */
  lemma {:induction false} ClassifyReaches(k: Knowledge, k': Knowledge, childIds: seq<string>, productId: string,
                                           classification: AppClass, child: string, other: string)
    requires ClassifyFor(k, childIds, productId, classification) == Success(k')
    ensures k' == k.(bindings := k'.bindings)
    ensures ApprovedBy(k'.bindings, child) == ApprovedBy(k.bindings, child)
    ensures child !in childIds || other != productId
            ==> ChoiceFor(k'.bindings, child, other) == ChoiceFor(k.bindings, child, other)
    ensures child in childIds ==>
              && ChoiceFor(k'.bindings, child, productId).Some?
              && ChoiceFor(k'.bindings, child, productId).value.classification == classification
    decreases |childIds|
  {
    if childIds != [] {
      var init, last := childIds[..|childIds| - 1], childIds[|childIds| - 1];
      assert child in childIds <==> child in init || child == last;
      var mid := ClassifyFor(k, init, productId, classification).value;
      ClassifyReaches(k, mid, init, productId, classification, child, other);
      var b := BindingOrEmpty(mid.bindings, child);
      hide FindChoice;
      UpdatedBinding(mid.bindings, last, (x: Binding) => Chosen(x, productId, classification), child);
      ChosenFor(b, productId, classification, other);
      ChosenFor(b, productId, classification, productId);
    }
  }

  // ----- confirming

  lemma {:induction false} SelectorRecognises(ev: AppEvidence, scope: Scope)
    requires SelectorFor(ev, scope).Success?
    ensures SelectorIdentifies(SelectorFor(ev, scope).value, ev)
  {
    var e := SelectorFor(ev, scope).value.match_;
    assert e.conditions[0] in e.conditions;
  }

  ghost predicate ConfirmedList(products: seq<Product>, products': seq<Product>, id: string, s: Selector) {
    || (exists p :: p in products && p.id == id
            && products' == WithProduct(products, id, (x: Product) => AddSelector(x, s)))
    || (id !in IdSet(products) && exists p: Product :: p.id == id && p.selectors == [s] && products' == products + [p])
  }

  /** One more selector for one product: that product gains exactly the evidence the selector
      identifies, and no product loses any. */
  lemma {:induction false} ConfirmedIdentification(products: seq<Product>, products': seq<Product>, target: string,
                                                   s: Selector, ev: AppEvidence, id: string)
    requires Distinct(ProductIds(products)) && ConfirmedList(products, products', target, s)
    ensures id in IdentifyProducts(products', ev)
            <==> id in IdentifyProducts(products, ev) || (id == target && SelectorIdentifies(s, ev))
  {
    KeyIsUnique(products, (x: Product) => x.id);
    if target in IdSet(products) {
      var p :| p in products && p.id == target;
      UpdatedProducts(products, target, (x: Product) => AddSelector(x, s));
      var q := AddSelector(p, s);
      assert Identifies(q, ev) <==> Identifies(p, ev) || SelectorIdentifies(s, ev);
      hide Distinct, IdentifyProducts, Identifies, WithProduct, SelectorIdentifies, AddSelector, IdSet;
      IdentifiedAre(products', ev, id);
      IdentifiedAre(products, ev, id);
    } else {
      var p: Product :| p.id == target && p.selectors == [s] && products' == products + [p];
      assert Identifies(p, ev) <==> SelectorIdentifies(s, ev);
      hide Distinct, IdentifyProducts, Identifies, WithProduct, SelectorIdentifies, AddSelector, IdSet;
      IdentifiedAre(products', ev, id);
      IdentifiedAre(products, ev, id);
    }
  }

  /** What an accepted confirmation does to the product list and to the children's choices. */
  lemma {:induction false} ConfirmParts(k: Knowledge, k': Knowledge, ev: AppEvidence, scope: Scope,
                                        existing: Option<string>, name: string, type_: AppType,
                                        classification: AppClass, childIds: seq<string>, freshId: string)
    returns (mid: Knowledge)
    requires freshId !in IdSet(k.products)
    requires Confirmed(k, ev, scope, existing, name, type_, classification, childIds, freshId) == Success(k')
    ensures SelectorFor(ev, scope).Success?
    ensures mid == k.(products := mid.products)
    ensures ClassifyFor(mid, childIds, ConfirmTarget(k, existing, freshId), classification) == Success(k')
    ensures ConfirmedList(k.products, mid.products, ConfirmTarget(k, existing, freshId), SelectorFor(ev, scope).value)
  {
    hide ClassifyFor, WithProduct, Trim, IdSet, SelectorFor;
    var selector := SelectorFor(ev, scope).value;
    if existing.Some? && FindProduct(k.products, existing.value).Some? {
      mid := k.(products := WithProduct(k.products, existing.value, (p: Product) => AddSelector(p, selector)));
    } else {
      var p := Product(freshId, Trim(name), type_, [selector]);
      mid := k.(products := k.products + [p]);
      assert p.id == freshId && p.selectors == [selector];
    }
  }

  /** Confirmed evidence is recognised as the product, nothing that was recognised is lost, and each
      listed child has the class that was chosen. */
  lemma {:induction false} ConfirmThenRecognised(k: Knowledge, k': Knowledge, ev: AppEvidence, scope: Scope,
                                                 existing: Option<string>, name: string, type_: AppType,
                                                 classification: AppClass, childIds: seq<string>, freshId: string,
                                                 other: AppEvidence, id: string, child: string)
    requires Distinct(ProductIds(k.products))
    requires freshId !in IdSet(k.products)
    requires Confirmed(k, ev, scope, existing, name, type_, classification, childIds, freshId) == Success(k')
    ensures ConfirmTarget(k, existing, freshId) in IdentifyProducts(k'.products, ev)
    ensures id in IdentifyProducts(k'.products, other)
            <==> id in IdentifyProducts(k.products, other)
                 || (id == ConfirmTarget(k, existing, freshId)
                     && SelectorIdentifies(SelectorFor(ev, scope).value, other))
    ensures child in childIds
            ==> ChoiceFor(k'.bindings, child, ConfirmTarget(k, existing, freshId)).Some?
                && ChoiceFor(k'.bindings, child, ConfirmTarget(k, existing, freshId)).value.classification
                    == classification
    ensures child !in childIds || id != ConfirmTarget(k, existing, freshId)
            ==> ChoiceFor(k'.bindings, child, id) == ChoiceFor(k.bindings, child, id)
  {
    var mid := ConfirmParts(k, k', ev, scope, existing, name, type_, classification, childIds, freshId);
    var target := ConfirmTarget(k, existing, freshId);
    SelectorRecognises(ev, scope);
    hide Distinct, IdentifyProducts, ConfirmedList, SelectorFor, ClassifyFor, Confirmed, ChoiceFor, SelectorIdentifies,
         ConfirmTarget, IdSet;
    ClassifyReaches(mid, k', childIds, target, classification, child, id);
    ConfirmedIdentification(k.products, mid.products, target, SelectorFor(ev, scope).value, ev, target);
    ConfirmedIdentification(k.products, mid.products, target, SelectorFor(ev, scope).value, other, id);
  }
}
