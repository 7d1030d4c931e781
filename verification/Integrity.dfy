/** Every edit keeps a well-formed catalogue well formed, and so does every sequence of edits. */
module Integrity {
  import opened Wrappers
  import opened Sequences
  import opened Evidence
  import opened Catalog
  import opened Editing
  import opened EditingFacts
  import opened Merging
  import opened Splitting
  import opened Children

  // ----- lists of keys

  lemma {:induction false} IdSetIs(products: seq<Product>)
    ensures forall id :: id in IdSet(products) <==> id in ProductIds(products)
  {
    MapMembers(products, (p: Product) => p.id);
  }

  // ----- products

  lemma {:induction false} UpdateKeepsProducts(products: seq<Product>, id: string, update: Product -> Product)
    requires ValidProducts(products)
    requires forall p: Product :: update(p).id == p.id
    requires forall p :: p in products && p.id == id ==> ValidProduct(update(p))
    ensures ValidProducts(WithProduct(products, id, update))
    ensures IdSet(WithProduct(products, id, update)) == IdSet(products)
  {
    UpdatedProducts(products, id, update);
    IdSetIs(products);
    IdSetIs(WithProduct(products, id, update));
    hide Distinct, ProductIds, ValidProduct, IdSet;
  }

  lemma {:induction false} AddKeepsProducts(products: seq<Product>, p: Product)
    requires ValidProducts(products) && ValidProduct(p) && p.id !in IdSet(products)
    ensures ValidProducts(products + [p])
    ensures IdSet(products + [p]) == IdSet(products) + {p.id}
  {
    IdSetIs(products);
    MapConcat(products, [p], (x: Product) => x.id);
    assert ProductIds(products + [p]) == ProductIds(products) + [p.id];
    DistinctSnoc(ProductIds(products), p.id);
  }

  lemma {:induction false} DropKeepsProducts(products: seq<Product>, id: string)
    requires ValidProducts(products)
    ensures ValidProducts(Filter(products, (p: Product) => p.id != id))
    ensures IdSet(Filter(products, (p: Product) => p.id != id)) == IdSet(products) - {id}
  {
    DistinctAfterFilter(products, (p: Product) => p.id != id, (p: Product) => p.id);
    hide Distinct, ValidProduct;
  }

  // ----- bindings

  lemma {:induction false} BindingGrows(b: Binding, productIds: set<string>, ruleIds: set<string>,
                                        productIds': set<string>, ruleIds': set<string>)
    requires ValidBinding(b, productIds, ruleIds) && productIds <= productIds' && ruleIds <= ruleIds'
    ensures ValidBinding(b, productIds', ruleIds')
  {
    hide Distinct;
  }

  lemma {:induction false} BindingsGrow(bindings: seq<Binding>, productIds: set<string>, ruleIds: set<string>,
                                        productIds': set<string>, ruleIds': set<string>)
    requires ValidBindings(bindings, productIds, ruleIds) && productIds <= productIds' && ruleIds <= ruleIds'
    ensures ValidBindings(bindings, productIds', ruleIds')
  {
    forall b | b in bindings ensures ValidBinding(b, productIds', ruleIds') {
      BindingGrows(b, productIds, ruleIds, productIds', ruleIds');
    }
  }

  lemma {:induction false} FoundIsValid(bindings: seq<Binding>, childId: string, productIds: set<string>,
                                        ruleIds: set<string>)
    requires ValidBindings(bindings, productIds, ruleIds)
    ensures ValidBinding(BindingOrEmpty(bindings, childId), productIds, ruleIds)
  {
  }

  lemma {:induction false} UpdateKeepsBindings(bindings: seq<Binding>, childId: string, update: Binding -> Binding,
                                               productIds: set<string>, ruleIds: set<string>)
    requires ValidBindings(bindings, productIds, ruleIds)
    requires forall b: Binding :: update(b).childId == b.childId
    requires ValidBinding(update(BindingOrEmpty(bindings, childId)), productIds, ruleIds)
    ensures ValidBindings(WithBinding(bindings, childId, update), productIds, ruleIds)
  {
    UpdatedMembers(bindings, childId, update);
    UpdatedChildIds(bindings, childId, update);
    hide ValidBinding, ChildIds, BindingOrEmpty;
    if childId !in ChildIds(bindings) {
      DistinctSnoc(ChildIds(bindings), childId);
    } else {
      assert ChildIds(bindings) + [] == ChildIds(bindings);
    }
  }

  // ----- classify

  lemma {:induction false} ChosenIsValid(b: Binding, productId: string, classification: AppClass,
                                         productIds: set<string>, ruleIds: set<string>)
    requires ValidBinding(b, productIds, ruleIds) && productId in productIds
    ensures ValidBinding(Chosen(b, productId, classification), productIds, ruleIds)
  {
    hide Distinct, Filter, Map, FindChoice;
    var others := Others(b.products, productId);
    var b' := Chosen(b, productId, classification);
    var last := b'.products[|others|];
    DistinctAfterFilter(b.products, (c: Choice) => c.productId != productId, (c: Choice) => c.productId);
    MapMembers(others, (c: Choice) => c.productId);
    MapConcat(others, [last], (c: Choice) => c.productId);
    assert ChosenProducts(b'.products) == ChosenProducts(others) + [productId];
    DistinctSnoc(ChosenProducts(others), productId);
    hide ChosenProducts;
    assert forall c :: c in b'.products ==> c in others || c == last;
  }

  lemma {:induction false} ClassifyKeeps(k: Knowledge, childId: string, productId: string, classification: AppClass)
    requires WellFormed(k) && productId in IdSet(k.products) && classification != Unclassified
    ensures WellFormed(SetProductClassification(k, childId, productId, classification).value)
  {
    hide ValidProducts, ValidRules, IdSet, RuleIdSet;
    FoundIsValid(k.bindings, childId, IdSet(k.products), RuleIdSet(k.rules));
    hide ValidBindings, ValidBinding, WithBinding;
    ChosenIsValid(BindingOrEmpty(k.bindings, childId), productId, classification, IdSet(k.products),
                  RuleIdSet(k.rules));
    UpdateKeepsBindings(k.bindings, childId, (b: Binding) => Chosen(b, productId, classification),
                        IdSet(k.products), RuleIdSet(k.rules));
  }

  lemma {:induction false} ClassifyForKeeps(k: Knowledge, k': Knowledge, childIds: seq<string>, productId: string,
                                            classification: AppClass)
    requires WellFormed(k) && productId in IdSet(k.products)
    requires ClassifyFor(k, childIds, productId, classification) == Success(k')
    ensures WellFormed(k') && k'.products == k.products && k'.rules == k.rules
    decreases |childIds|
  {
    if childIds != [] {
      var init, last := childIds[..|childIds| - 1], childIds[|childIds| - 1];
      var mid := ClassifyFor(k, init, productId, classification).value;
      ClassifyForKeeps(k, mid, init, productId, classification);
      hide WellFormed, IdSet;
      ClassifyKeeps(mid, last, productId, classification);
    }
  }

  // ----- confirm

  lemma {:induction false} ConfirmedListKeeps(k: Knowledge, k': Knowledge, id: string, s: Selector)
    requires WellFormed(k) && k' == k.(products := k'.products)
    requires ConfirmedList(k.products, k'.products, id, s) && id != "" && SafeAutomatic(s.match_)
    ensures WellFormed(k') && id in IdSet(k'.products)
  {
    hide Distinct, SafeAutomatic;
    if id in IdSet(k.products) {
      UpdateKeepsProducts(k.products, id, (x: Product) => AddSelector(x, s));
    } else {
      var p: Product :| p.id == id && p.selectors == [s] && k'.products == k.products + [p];
      AddKeepsProducts(k.products, p);
      assert IdSet(k.products) <= IdSet(k'.products);
      BindingsGrow(k.bindings, IdSet(k.products), RuleIdSet(k.rules), IdSet(k'.products), RuleIdSet(k.rules));
    }
  }

  lemma {:induction false} ConfirmKeeps(k: Knowledge, k': Knowledge, ev: AppEvidence, scope: Scope,
                                        existing: Option<string>, name: string, type_: AppType,
                                        classification: AppClass, childIds: seq<string>, freshId: string)
    requires WellFormed(k) && freshId != "" && freshId !in IdSet(k.products)
    requires Confirmed(k, ev, scope, existing, name, type_, classification, childIds, freshId) == Success(k')
    ensures WellFormed(k')
  {
    var mid := ConfirmParts(k, k', ev, scope, existing, name, type_, classification, childIds, freshId);
    var target := ConfirmTarget(k, existing, freshId);
    SelectorRecognises(ev, scope);
    assert target != "" by {
      if target != freshId {
        var p := FindProduct(k.products, existing.value).value;
        assert p in k.products && ValidProduct(p);
      }
    }
    hide WellFormed, Confirmed, ConfirmedList, ConfirmTarget, IdSet, ClassifyFor, SelectorFor, Matches, SafeAutomatic;
    ConfirmedListKeeps(k, mid, target, SelectorFor(ev, scope).value);
    ClassifyForKeeps(mid, k', childIds, target, classification);
  }

  // ----- merge

  lemma {:induction false} RetargetKeepsRules(rules: seq<Rule>, sourceId: string, targetId: string,
                                              productIds: set<string>)
    requires ValidRules(rules, productIds) && targetId in productIds && sourceId != targetId
    ensures ValidRules(Map(rules, (r: Rule) => Retarget(r, sourceId, targetId)), productIds - {sourceId})
    ensures RuleIdSet(Map(rules, (r: Rule) => Retarget(r, sourceId, targetId))) == RuleIdSet(rules)
  {
    hide Distinct, Map, RuleIdSet;
    var rules' := Map(rules, (r: Rule) => Retarget(r, sourceId, targetId));
    assert RuleIds(rules') == RuleIds(rules);
    RuleIdSetIs(rules);
    RuleIdSetIs(rules');
    forall r | r in rules' ensures ValidRule(r, productIds - {sourceId}) {
      var i :| 0 <= i < |rules'| && rules'[i] == r;
      assert ValidRule(rules[i], productIds);
    }
  }

  lemma {:induction false} RuleIdSetIs(rules: seq<Rule>)
    ensures RuleIdSet(rules) == Members(RuleIds(rules))
  {
    hide Map;
    MapMembers(rules, (r: Rule) => r.id);
  }

  lemma {:induction false} BindingShrinks(b: Binding, gone: string, productIds: set<string>, ruleIds: set<string>)
    requires ValidBinding(b, productIds, ruleIds) && FindChoice(b.products, gone).None?
    ensures ValidBinding(b, productIds - {gone}, ruleIds)
  {
    hide Distinct;
  }

  lemma {:induction false} OthersAreValid(b: Binding, gone: string, productIds: set<string>, ruleIds: set<string>)
    requires ValidBinding(b, productIds, ruleIds)
    ensures ValidBinding(b.(products := Others(b.products, gone)), productIds - {gone}, ruleIds)
    ensures gone !in ChosenProducts(Others(b.products, gone))
  {
    hide Distinct, Filter, Map, FindChoice;
    DistinctAfterFilter(b.products, (c: Choice) => c.productId != gone, (c: Choice) => c.productId);
    MapMembers(Others(b.products, gone), (c: Choice) => c.productId);
  }

  lemma {:induction false} MergedChoicesAreValid(b: Binding, sourceId: string, targetId: string,
                                                 productIds: set<string>, ruleIds: set<string>)
    requires ValidBinding(b, productIds, ruleIds) && targetId in productIds && sourceId != targetId
    ensures ValidBinding(MergedChoices(b, sourceId, targetId), productIds - {sourceId}, ruleIds)
  {
    hide Distinct, Filter, Map;
    var others := Others(b.products, sourceId);
    var left, right := FindChoice(b.products, sourceId), FindChoice(b.products, targetId);
    OthersAreValid(b, sourceId, productIds, ruleIds);
    assert others + [] == others;
    if left.Some? && right.None? {
      var moved := left.value.(productId := targetId);
      var b' := MergedChoices(b, sourceId, targetId);
      MapMembers(others, (c: Choice) => c.productId);
      MapConcat(others, [moved], (c: Choice) => c.productId);
      assert ChosenProducts(b'.products) == ChosenProducts(others) + [targetId];
      assert targetId !in ChosenProducts(others);
      DistinctSnoc(ChosenProducts(others), targetId);
      hide ChosenProducts;
      assert forall c :: c in b'.products ==> c in others || c == moved;
    }
  }

  lemma {:induction false} MergedBindingsAreValid(bindings: seq<Binding>, sourceId: string, targetId: string,
                                                  childId: string, productIds: set<string>, ruleIds: set<string>)
    requires ValidBindings(bindings, productIds, ruleIds) && targetId in productIds && sourceId != targetId
    requires !ChosenByOthers(bindings, childId, sourceId) && FindBinding(bindings, childId).Some?
    ensures ValidBindings(WithBinding(bindings, childId, (b: Binding) => MergedChoices(b, sourceId, targetId)),
                          productIds - {sourceId}, ruleIds)
  {
    var update := (b: Binding) => MergedChoices(b, sourceId, targetId);
    var bindings' := WithBinding(bindings, childId, update);
    var own := FindBinding(bindings, childId).value;
    UpdatedMembers(bindings, childId, update);
    UpdatedChildIds(bindings, childId, update);
    MapMembers(bindings, (b: Binding) => b.childId);
    assert ChildIds(bindings') == ChildIds(bindings);
    MergedChoicesAreValid(own, sourceId, targetId, productIds, ruleIds);
    OnlyOwnRemains(bindings, childId, update);
    hide MergedChoices, WithBinding, Distinct, ChildIds, FindChoice, ValidBinding;
    forall b | b in bindings' ensures ValidBinding(b, productIds - {sourceId}, ruleIds) {
      if b != update(own) {
        BindingShrinks(b, sourceId, productIds, ruleIds);
      }
    }
  }

  /** With one binding per child, updating a child's binding leaves only other children's as they were. */
  lemma {:induction false} OnlyOwnRemains(bindings: seq<Binding>, childId: string, update: Binding -> Binding)
    requires Distinct(ChildIds(bindings)) && FindBinding(bindings, childId).Some?
    ensures forall b :: b in WithBinding(bindings, childId, update)
                        ==> (b in bindings && b.childId != childId) || b == update(FindBinding(bindings, childId).value)
  {
    assert ChildIds(bindings)[1..] == ChildIds(bindings[1..]);
    if bindings[0].childId == childId {
      forall b | b in bindings[1..] ensures b.childId != childId {
        var i :| 0 <= i < |bindings[1..]| && bindings[1..][i] == b;
        assert ChildIds(bindings)[i + 1] == b.childId;
      }
    } else {
      OnlyOwnRemains(bindings[1..], childId, update);
    }
  }

  lemma {:induction false} MergedListKeeps(products: seq<Product>, source: Product, target: Product)
    requires ValidProducts(products) && source in products && target in products && source.id != target.id
    ensures ValidProducts(MergedList(products, source, target))
    ensures IdSet(MergedList(products, source, target)) == IdSet(products) - {source.id}
  {
    var selectors := AddMissing(target.selectors, source.selectors);
    var update := (p: Product) => p.(selectors := selectors);
    assert ValidProduct(target) && ValidProduct(source);
    assert forall p: Product :: p.id == target.id ==> ValidProduct(update(p));
    hide ValidProduct, Distinct, AddMissing;
    UpdateKeepsProducts(products, target.id, update);
    DropKeepsProducts(WithProduct(products, target.id, update), source.id);
  }

  lemma {:induction false} UnboundIsUnchosen(bindings: seq<Binding>, childId: string, gone: string,
                                             productIds: set<string>, ruleIds: set<string>)
    requires ValidBindings(bindings, productIds, ruleIds)
    requires !ChosenByOthers(bindings, childId, gone) && FindBinding(bindings, childId).None?
    ensures ValidBindings(bindings, productIds - {gone}, ruleIds)
  {
    hide Distinct, FindChoice, ValidBinding;
    forall b | b in bindings ensures ValidBinding(b, productIds - {gone}, ruleIds) {
      BindingShrinks(b, gone, productIds, ruleIds);
    }
  }

  lemma {:induction false} MergeKeeps(k: Knowledge, k': Knowledge, sourceId: string, targetId: string, childId: string)
    requires WellFormed(k) && Merged(k, sourceId, targetId, childId) == Success(k')
    ensures WellFormed(k')
  {
    var source, target := MergeParts(k, k', sourceId, targetId, childId);
    var productIds, ruleIds := IdSet(k.products), RuleIdSet(k.rules);
    assert targetId in productIds;
    hide MergedList, ValidProducts, ValidRules, ValidBindings, IdSet, RuleIdSet, AcceptedMerge, WithBinding, Map,
         FindChoice;
    MergedListKeeps(k.products, source, target);
    RetargetKeepsRules(k.rules, sourceId, targetId, productIds);
    if FindBinding(k.bindings, childId).Some? {
      MergedBindingsAreValid(k.bindings, sourceId, targetId, childId, productIds, ruleIds);
    } else {
      UnboundIsUnchosen(k.bindings, childId, sourceId, productIds, ruleIds);
    }
  }

  // ----- split and unlink

  lemma {:induction false} SplitListKeeps(products: seq<Product>, p: Product, index: nat, added: Product)
    requires ValidProducts(products) && p in products && index < |p.selectors| && |p.selectors| > 1
    requires added.id !in IdSet(products) && added.id != "" && added.selectors == [p.selectors[index]]
    ensures ValidProducts(SplitList(products, p, index, added))
    ensures IdSet(SplitList(products, p, index, added)) == IdSet(products) + {added.id}
  {
    var update := (x: Product) => x.(selectors := WithoutSelector(p, index).selectors);
    assert ValidProduct(p);
    var rest := WithoutSelector(p, index).selectors;
    assert forall s :: s in rest ==> s in p.selectors;
    assert p.selectors[index] in p.selectors;
    assert forall x: Product :: x.id == p.id ==> ValidProduct(update(x));
    assert ValidProduct(added);
    hide ValidProduct, Distinct, WithoutSelector, IdSet;
    UpdateKeepsProducts(products, p.id, update);
    AddKeepsProducts(WithProduct(products, p.id, update), added);
  }

  lemma {:induction false} NewChoiceIsValid(b: Binding, c: Choice, productIds: set<string>, ruleIds: set<string>)
    requires ValidBinding(b, productIds, ruleIds) && c.productId !in productIds && !c.enhancedBlocking
    ensures ValidBinding(b.(products := b.products + [c]), productIds + {c.productId}, ruleIds)
  {
    MapMembers(b.products, (x: Choice) => x.productId);
    MapConcat(b.products, [c], (x: Choice) => x.productId);
    assert ChosenProducts(b.products + [c]) == ChosenProducts(b.products) + [c.productId];
    DistinctSnoc(ChosenProducts(b.products), c.productId);
    hide Distinct, ChosenProducts;
  }

  /** In a well-formed catalogue a product id that is not in use has not been chosen either. */
  lemma {:induction false} FreshIsUnused(k: Knowledge, freshId: string)
    requires WellFormed(k) && freshId !in IdSet(k.products)
    ensures Unused(k, freshId)
  {
    hide Distinct, ValidProducts, ValidRules, IdSet, RuleIdSet;
    forall b | b in k.bindings ensures FindChoice(b.products, freshId).None? {
      assert ValidBinding(b, IdSet(k.products), RuleIdSet(k.rules));
    }
  }

  lemma {:induction false} SplitKeeps(k: Knowledge, k': Knowledge, s: Split)
    requires WellFormed(k) && s.freshId != "" && s.freshId !in IdSet(k.products)
    requires SplitVariant(k, s.productId, s.index, s.freshId, s.name, s.childId, s.classification) == Success(k')
    ensures WellFormed(k')
  {
    FreshIsUnused(k, s.freshId);
    var p, added := SplitParts(k, k', s);
    var productIds, ruleIds := IdSet(k.products), RuleIdSet(k.rules);
    var c := Choice(s.freshId, s.classification, false);
    assert |p.selectors| > 1 by {
      assert FindProduct(k.products, s.productId) == Some(p) by { FindProductByKey(k.products, p); }
    }
    FoundIsValid(k.bindings, s.childId, productIds, ruleIds);
    hide Distinct, ValidBinding, IdSet, RuleIdSet, SplitList, AcceptedSplit, FindProduct, Unused, ValidProducts,
         WithBinding, WithProduct;
    SplitListKeeps(k.products, p, s.index, added);
    NewChoiceIsValid(BindingOrEmpty(k.bindings, s.childId), c, productIds, ruleIds);
    BindingsGrow(k.bindings, productIds, ruleIds, productIds + {s.freshId}, ruleIds);
    UpdateKeepsBindings(k.bindings, s.childId,
                        (b: Binding) => b.(products := b.products + [Choice(s.freshId, s.classification, false)]),
                        productIds + {s.freshId}, ruleIds);
    RulesGrow(k.rules, productIds, productIds + {s.freshId});
  }

  lemma {:induction false} RulesGrow(rules: seq<Rule>, productIds: set<string>, productIds': set<string>)
    requires ValidRules(rules, productIds) && productIds <= productIds'
    ensures ValidRules(rules, productIds')
  {
    hide Distinct;
  }

  lemma {:induction false} UnlinkKeeps(k: Knowledge, k': Knowledge, productId: string, index: int,
                                       childIds: seq<string>)
    requires WellFormed(k) && Unlinked(k, productId, index, childIds) == Success(k')
    ensures WellFormed(k')
  {
    var p := FindProduct(k.products, productId).value;
    var productIds, ruleIds := IdSet(k.products), RuleIdSet(k.rules);
    assert p in k.products && ValidProduct(p);
    if |p.selectors| > 1 {
      var update := (x: Product) => x.(selectors := WithoutSelector(p, index).selectors);
      var rest := WithoutSelector(p, index).selectors;
      assert forall s :: s in rest ==> s in p.selectors;
      assert forall x: Product :: x.id == productId ==> ValidProduct(update(x));
      hide Distinct, ValidProduct, IdSet, ValidRules, ValidBindings, WithoutSelector, FindProduct, Referenced,
           ChosenOutside;
      UpdateKeepsProducts(k.products, productId, update);
    } else {
      UnlinkRemoves(k, k', productId, childIds);
    }
  }

  lemma {:induction false} UnlinkRemoves(k: Knowledge, k': Knowledge, productId: string, childIds: seq<string>)
    requires WellFormed(k) && !Referenced(k.rules, productId) && !ChosenOutside(k.bindings, childIds, productId)
    requires k' == k.(bindings := Map(k.bindings, (b: Binding) => Unchosen(b, childIds, productId)),
                      products := Filter(k.products, (p: Product) => p.id != productId))
    ensures WellFormed(k')
  {
    var productIds, ruleIds := IdSet(k.products), RuleIdSet(k.rules);
    DropKeepsProducts(k.products, productId);
    assert ChildIds(k'.bindings) == ChildIds(k.bindings);
    hide Distinct, IdSet, ValidProducts, RuleIdSet, ValidBinding;
    assert ValidRules(k'.rules, productIds - {productId});
    forall b' | b' in k'.bindings ensures ValidBinding(b', productIds - {productId}, ruleIds) {
      var i :| 0 <= i < |k'.bindings| && k'.bindings[i] == b';
      var b := k.bindings[i];
      assert b in k.bindings;
      if b.childId in childIds {
        OthersAreValid(b, productId, productIds, ruleIds);
      } else {
        BindingShrinks(b, productId, productIds, ruleIds);
      }
    }
  }

  // ----- rules

  lemma {:induction false} AddKeepsRules(rules: seq<Rule>, r: Rule, productIds: set<string>)
    requires ValidRules(rules, productIds) && ValidRule(r, productIds) && r.id !in RuleIdSet(rules)
    ensures ValidRules(rules + [r], productIds)
    ensures RuleIdSet(rules + [r]) == RuleIdSet(rules) + {r.id}
  {
    MapMembers(rules, (x: Rule) => x.id);
    MapConcat(rules, [r], (x: Rule) => x.id);
    assert RuleIds(rules + [r]) == RuleIds(rules) + [r.id];
    DistinctSnoc(RuleIds(rules), r.id);
    hide Distinct, RuleIds;
  }

  lemma {:induction false} WithoutIsDistinct(ids: seq<string>, id: string)
    requires Distinct(ids)
    ensures Distinct(Without(ids, id))
  {
    var kept := Without(ids, id);
    assert Map(ids, (x: string) => x) == ids;
    DistinctAfterFilter(ids, (x: string) => x != id, (x: string) => x);
    assert Map(kept, (x: string) => x) == kept;
  }

  lemma {:induction false} ReapprovedIsValid(b: Binding, oldId: Option<string>, newId: string, productIds: set<string>,
                                             ruleIds: set<string>)
    requires ValidBinding(b, productIds, ruleIds) && newId in ruleIds
    ensures ValidBinding(Reapproved(b, oldId, newId), productIds, ruleIds)
  {
    if oldId.Some? {
      WithoutIsDistinct(b.ruleIds, oldId.value);
    }
    var kept := WithoutOld(b.ruleIds, oldId);
    if newId !in kept {
      DistinctSnoc(kept, newId);
    }
    hide Distinct;
  }

  lemma {:induction false} ReapproveKeeps(bindings: seq<Binding>, childIds: seq<string>, oldId: Option<string>,
                                          newId: string, productIds: set<string>, ruleIds: set<string>)
    requires ValidBindings(bindings, productIds, ruleIds) && newId in ruleIds
    ensures ValidBindings(ReapproveFor(bindings, childIds, oldId, newId), productIds, ruleIds)
    decreases |childIds|
  {
    if childIds != [] {
      var init, last := childIds[..|childIds| - 1], childIds[|childIds| - 1];
      var mid := ReapproveFor(bindings, init, oldId, newId);
      ReapproveKeeps(bindings, init, oldId, newId, productIds, ruleIds);
      FoundIsValid(mid, last, productIds, ruleIds);
      hide ValidBindings, ValidBinding, BindingOrEmpty;
      ReapprovedIsValid(BindingOrEmpty(mid, last), oldId, newId, productIds, ruleIds);
      UpdateKeepsBindings(mid, last, (b: Binding) => Reapproved(b, oldId, newId), productIds, ruleIds);
    }
  }

  lemma {:induction false} ReviseKeeps(k: Knowledge, rule: Rule, childIds: seq<string>, oldId: Option<string>)
    requires WellFormed(k) && ValidRule(rule, IdSet(k.products)) && rule.id !in RuleIdSet(k.rules)
    ensures WellFormed(Revised(k, rule, childIds, oldId))
  {
    var productIds, ruleIds := IdSet(k.products), RuleIdSet(k.rules);
    hide ValidProducts, ValidRules, ValidBindings, IdSet, RuleIdSet, ReapproveFor, ValidRule;
    AddKeepsRules(k.rules, rule, productIds);
    BindingsGrow(k.bindings, productIds, ruleIds, productIds, ruleIds + {rule.id});
    ReapproveKeeps(k.bindings, childIds, oldId, rule.id, productIds, ruleIds + {rule.id});
  }

  lemma {:induction false} ToggledIsValid(b: Binding, rule: Rule, freshId: string, productIds: set<string>,
                                          ruleIds: set<string>)
    requires ValidBinding(b, productIds, ruleIds) && rule.id in ruleIds
    requires !rule.enabled ==> freshId in ruleIds && freshId !in b.ruleIds
    ensures ValidBinding(Toggled(b, rule, freshId), productIds, ruleIds)
  {
    WithoutIsDistinct(b.ruleIds, rule.id);
    if !rule.enabled {
      DistinctSnoc(Without(b.ruleIds, rule.id), freshId);
    } else if rule.id !in b.ruleIds {
      DistinctSnoc(b.ruleIds, rule.id);
    }
    hide Distinct;
  }

  lemma {:induction false} ToggleKeeps(k: Knowledge, k': Knowledge, ruleId: string, childId: string, freshId: string)
    requires WellFormed(k) && freshId != "" && freshId !in RuleIdSet(k.rules)
    requires ToggleApproval(k, ruleId, childId, freshId) == Success(k')
    ensures WellFormed(k')
  {
    var rule := FindRule(k.rules, ruleId).value;
    var productIds, ruleIds := IdSet(k.products), RuleIdSet(k.rules);
    var own := BindingOrEmpty(k.bindings, childId);
    var added := rule.(id := freshId, enabled := true);
    assert ruleId in ruleIds && ValidRule(added, productIds);
    FoundIsValid(k.bindings, childId, productIds, ruleIds);
    assert freshId !in own.ruleIds;
    hide ValidProducts, ValidRules, ValidBindings, IdSet, RuleIdSet, ValidRule, ValidBinding, BindingOrEmpty,
         WithBinding, Toggled, FindRule;
    var ruleIds' := if rule.enabled then ruleIds else ruleIds + {freshId};
    if !rule.enabled {
      AddKeepsRules(k.rules, added, productIds);
    }
    BindingGrows(own, productIds, ruleIds, productIds, ruleIds');
    BindingsGrow(k.bindings, productIds, ruleIds, productIds, ruleIds');
    ToggledIsValid(own, rule, freshId, productIds, ruleIds');
    ToggledKeepsChild(rule, freshId);
    UpdateKeepsBindings(k.bindings, childId, (b: Binding) => Toggled(b, rule, freshId), productIds, ruleIds');
  }

  lemma {:induction false} ToggledKeepsChild(rule: Rule, freshId: string)
    ensures forall b: Binding :: Toggled(b, rule, freshId).childId == b.childId
  {
  }

  // ----- runs

  datatype Step =
    | Confirm(ev: AppEvidence, scope: Scope, existing: Option<string>, name: string, type_: AppType,
              class_: AppClass, childIds: seq<string>, productId: string)
    | Classify(childId: string, productId: string, class_: AppClass)
    | Merge(sourceId: string, targetId: string, childId: string)
    | Divide(split: Split)
    | Unlink(productId: string, index: int, childIds: seq<string>)
    | Revise(rule: Rule, childIds: seq<string>, oldId: Option<string>)
    | Toggle(ruleId: string, childId: string, freshId: string)

  /** What the console supplies: ids that are not in use, and products it has listed. */
  ghost predicate Offered(k: Knowledge, step: Step) {
    match step
    case Confirm(ev, _, _, _, _, _, _, productId) =>
      productId != "" && productId !in IdSet(k.products)
    case Classify(_, productId, _) => productId in IdSet(k.products)
    case Merge(_, _, _) => true
    case Divide(split) => split.freshId != "" && split.freshId !in IdSet(k.products)
    case Unlink(_, _, _) => true
    case Revise(rule, _, _) => ValidRule(rule, IdSet(k.products)) && rule.id !in RuleIdSet(k.rules)
    case Toggle(_, _, freshId) => freshId != "" && freshId !in RuleIdSet(k.rules)
  }

  ghost function Attempt(k: Knowledge, step: Step): Edited
    requires Offered(k, step)
  {
    match step
    case Confirm(ev, scope, existing, name, type_, class_, childIds, productId) =>
      Confirmed(k, ev, scope, existing, name, type_, class_, childIds, productId)
    case Classify(childId, productId, class_) => SetProductClassification(k, childId, productId, class_)
    case Merge(sourceId, targetId, childId) => Merged(k, sourceId, targetId, childId)
    case Divide(s) => SplitVariant(k, s.productId, s.index, s.freshId, s.name, s.childId, s.classification)
    case Unlink(productId, index, childIds) => Unlinked(k, productId, index, childIds)
    case Revise(rule, childIds, oldId) => Success(Revised(k, rule, childIds, oldId))
    case Toggle(ruleId, childId, freshId) => ToggleApproval(k, ruleId, childId, freshId)
  }

  /** A refused edit leaves the catalogue as it was. */
  ghost function After(k: Knowledge, step: Step): Knowledge
    requires Offered(k, step)
  {
    match Attempt(k, step)
    case Success(k') => k'
    case Failure(_) => k
  }

  /** `states` is a run: each catalogue comes from the previous one by an edit the console offers. */
  ghost predicate IsRun(states: seq<Knowledge>, steps: seq<Step>) {
    && |states| == |steps| + 1
    && forall i :: 0 <= i < |steps| ==> Offered(states[i], steps[i]) && states[i + 1] == After(states[i], steps[i])
  }

  /** What a well-formed catalogue guarantees: ids are unique and not empty, every product has a selector and no
      selector rests on hints alone, every rule about a product is about one that exists, every choice is of
      a product that exists, and every approved rule exists. */
  lemma {:induction false} IntegrityMeans(k: Knowledge)
    requires WellFormed(k)
    ensures forall p :: p in k.products ==> p.id != "" && p.selectors != []
    ensures forall p, s :: p in k.products && s in p.selectors ==> SafeAutomatic(s.match_)
    ensures forall r :: r in k.rules && r.productId.Some? ==> exists p :: p in k.products && r.productId == Some(p.id)
    ensures forall b, c :: b in k.bindings && c in b.products ==> exists p :: p in k.products && p.id == c.productId
    ensures forall b, id :: b in k.bindings && id in b.ruleIds ==> exists r :: r in k.rules && r.id == id
    ensures forall i, j :: 0 <= i < j < |k.products| ==> k.products[i].id != k.products[j].id
    ensures forall i, j :: 0 <= i < j < |k.rules| ==> k.rules[i].id != k.rules[j].id
    ensures forall i, j :: 0 <= i < j < |k.bindings| ==> k.bindings[i].childId != k.bindings[j].childId
  {
    hide SafeAutomatic;
    assert forall i :: 0 <= i < |k.products| ==> ProductIds(k.products)[i] == k.products[i].id;
    assert forall i :: 0 <= i < |k.rules| ==> RuleIds(k.rules)[i] == k.rules[i].id;
    assert forall i :: 0 <= i < |k.bindings| ==> ChildIds(k.bindings)[i] == k.bindings[i].childId;
    forall b, c | b in k.bindings && c in b.products ensures c.productId in IdSet(k.products) {
      assert ValidBinding(b, IdSet(k.products), RuleIdSet(k.rules));
    }
  }

  lemma {:induction false} StepKeepsIntegrity(k: Knowledge, step: Step)
    requires WellFormed(k) && Offered(k, step)
    ensures WellFormed(After(k, step))
  {
    hide WellFormed, IdSet, RuleIdSet, ValidRule, Confirmed, Merged, SplitVariant, Unlinked, Revised, ToggleApproval;
    var r := Attempt(k, step);
    if r.Success? {
      var k' := r.value;
      match step
      case Confirm(ev, scope, existing, name, type_, class_, childIds, productId) =>
        ConfirmKeeps(k, k', ev, scope, existing, name, type_, class_, childIds, productId);
      case Classify(childId, productId, class_) => ClassifyKeeps(k, childId, productId, class_);
      case Merge(sourceId, targetId, childId) => MergeKeeps(k, k', sourceId, targetId, childId);
      case Divide(s) => SplitKeeps(k, k', s);
      case Unlink(productId, index, childIds) => UnlinkKeeps(k, k', productId, index, childIds);
      case Revise(rule, childIds, oldId) => ReviseKeeps(k, rule, childIds, oldId);
      case Toggle(ruleId, childId, freshId) => ToggleKeeps(k, k', ruleId, childId, freshId);
    }
  }

  /** Every catalogue of every run is well formed: no reference dangles and no product is left without
      an identity. */
  lemma {:induction false} RunKeepsIntegrity(states: seq<Knowledge>, steps: seq<Step>, n: nat)
    requires IsRun(states, steps) && n <= |steps| && WellFormed(states[0])
    ensures WellFormed(states[n])
  {
    if n > 0 {
      RunKeepsIntegrity(states, steps, n - 1);
      StepKeepsIntegrity(states[n - 1], steps[n - 1]);
      assert states[n - 1 + 1] == After(states[n - 1], steps[n - 1]);
    }
  }
}
