/** What splitting a product does to the decisions of every child, and when merging the new product back
    restores them. */
module SplitDecisions {
  import opened Wrappers
  import opened Sequences
  import opened Text
  import opened Ordering
  import opened Evidence
  import opened Catalog
  import opened Decisions
  import opened Editing
  import opened EditingFacts
  import opened Merging
  import opened Splitting

  // ----- what the resolver finds after a split

  lemma {:induction false} ApprovedAfterSplit(k: Knowledge, k': Knowledge, s: Split, child: string)
    requires AcceptedSplit(k, k', s)
    ensures ApprovedBy(k'.bindings, child) == ApprovedBy(k.bindings, child)
    ensures k' == k.(products := k'.products, bindings := k'.bindings)
  {
    hide FindProduct, Distinct, Trim, IdSet, WithProduct, FindChoice, FindBinding, WithBinding;
    UpdatedBinding(k.bindings, s.childId,
                   (b: Binding) => b.(products := b.products + [Choice(s.freshId, s.classification, false)]), child);
  }

  /** After the split the original is found without the selector, and every other product as before. */
  lemma {:induction false} FoundAfterSplit(k: Knowledge, k': Knowledge, s: Split, p: Product, added: Product,
                                           id: string)
    requires p in k.products && p.id == s.productId && 0 <= s.index < |p.selectors| && added.id == s.freshId
    requires Distinct(ProductIds(k.products)) && s.freshId !in IdSet(k.products)
    requires k'.products == SplitList(k.products, p, s.index, added)
    ensures FindProduct(k.products, p.id) == Some(p)
    ensures FindProduct(k'.products, p.id) == Some(WithoutSelector(p, s.index))
    ensures id != p.id && FindProduct(k.products, id).Some?
            ==> FindProduct(k'.products, id) == FindProduct(k.products, id)
  {
    hide Distinct, SplitList, WithoutSelector, IdSet;
    SplitMembers(k.products, p, s.index, added);
    FindProductByKey(k.products, p);
    WithoutKeepsId(p, s.index);
    FindProductByKey(k'.products, WithoutSelector(p, s.index));
    if id != p.id && FindProduct(k.products, id).Some? {
      FindProductByKey(k'.products, FindProduct(k.products, id).value);
    }
  }

  lemma {:induction false} WithoutKeepsId(p: Product, index: nat)
    requires index < |p.selectors|
    ensures WithoutSelector(p, index).id == p.id && WithoutSelector(p, index).type_ == p.type_
  {
  }

  /** A selector that does not identify the evidence has no part in the reason. */
  lemma {:induction false} ReasonWithout(p: Product, index: nat, ev: AppEvidence)
    requires index < |p.selectors| && !SelectorIdentifies(p.selectors[index], ev)
    ensures ReasonFor(WithoutSelector(p, index), ev) == ReasonFor(p, ev)
  {
    hide SelectorIdentifies, SelectorReason;
    var left, x, right := p.selectors[..index], p.selectors[index], p.selectors[index + 1..];
    var test := (s: Selector) => SelectorIdentifies(s, ev);
    assert p.selectors == left + ([x] + right);
    FindConcat(left, [x] + right, test);
    FindConcat([x], right, test);
    FindConcat(left, right, test);
  }

  /** What the evidence identifies after the split, by what it identified before. */
  lemma {:induction false} IdentifiedAfterSplit(k: Knowledge, k': Knowledge, s: Split, p: Product, added: Product,
                                                ev: AppEvidence)
    requires p in k.products && p.id == s.productId && 0 <= s.index < |p.selectors|
    requires added.id == s.freshId && added.selectors == [p.selectors[s.index]]
    requires Distinct(ProductIds(k.products)) && s.freshId !in IdSet(k.products)
    requires k'.products == SplitList(k.products, p, s.index, added)
    ensures var before, after := IdentifyProducts(k.products, ev), IdentifyProducts(k'.products, ev);
            var moved := SelectorIdentifies(p.selectors[s.index], ev);
            && (!moved ==> after == before)
            && (before == [p.id] && moved ==>
                  if Identifies(WithoutSelector(p, s.index), ev) then |after| > 1 else after == [s.freshId])
  {
    hide Distinct, SortedBy, SplitList, IdentifyProducts, Identifies, IdSet, WithoutSelector, SelectorIdentifies;
    var before, after := IdentifyProducts(k.products, ev), IdentifyProducts(k'.products, ev);
    var moved := SelectorIdentifies(p.selectors[s.index], ev);
    SplitMembers(k.products, p, s.index, added);
    IdentifiedOnce(k.products, ev);
    IdentifiedOnce(k'.products, ev);
    SplitSelectors(p, s.index, added, ev);
    IdentifiedProduct(k.products, p, ev);
    SingleSelector(added, p.selectors[s.index], ev);
    FreshIsNew(k.products, p.id, added.id, ev);
    forall id
      ensures id in after <==> if id == p.id then Identifies(WithoutSelector(p, s.index), ev)
                               else if id == added.id then moved else id in before
    {
      SplitIdentification(k.products, p, s.index, added, ev, id);
    }
    if !moved {
      SameIdentified(before, after);
    } else if before == [p.id] {
      if Identifies(WithoutSelector(p, s.index), ev) {
        assert p.id in after && added.id in after && p.id != added.id;
      } else {
        SingleIdentified(after, added.id);
      }
    }
  }

  lemma {:induction false} SingleSelector(p: Product, s: Selector, ev: AppEvidence)
    requires p.selectors == [s]
    ensures Identifies(p, ev) <==> SelectorIdentifies(s, ev)
  {
  }

  lemma {:induction false} FreshIsNew(products: seq<Product>, id: string, freshId: string, ev: AppEvidence)
    requires freshId !in IdSet(products) && exists p :: p in products && p.id == id
    ensures id != freshId && freshId !in IdentifyProducts(products, ev)
  {
    hide IdentifyProducts, Identifies;
    IdentifiedAre(products, ev, freshId);
  }

  /** Evidence that the moved selector does not identify resolves exactly as before, for every child. */
  lemma {:induction false} SplitKeepsOthers(k: Knowledge, k': Knowledge, s: Split, p: Product, child: string,
                                            ev: AppEvidence, previous: AppClass)
    requires AcceptedSplit(k, k', s) && FindProduct(k.products, s.productId) == Some(p)
    requires 0 <= s.index < |p.selectors| && !SelectorIdentifies(p.selectors[s.index], ev)
    ensures ResolveApplication(k', child, ev, previous) == ResolveApplication(k, child, ev, previous)
  {
    hide Distinct, SplitList, IdentifyProducts, IdSet, AcceptedSplit, SelectorIdentifies, FindProduct, ChoiceFor,
         ApprovedBy,
         ResolveApplication, WithoutSelector, ReasonFor, SplitVariant;
    var p0, added := SplitParts(k, k', s);
    FoundAfterSplit(k, k', s, p0, added, s.productId);
    ApprovedAfterSplit(k, k', s, child);
    IdentifiedAfterSplit(k, k', s, p, added, ev);
    ReasonWithout(p, s.index, ev);
    WithoutKeepsId(p, s.index);
    var identified := IdentifyProducts(k.products, ev);
    if |identified| == 1 {
      var id := identified[0];
      assert id in identified;
      IdentifiedIsFound(k.products, ev, id);
      FreshIsNew(k.products, p.id, s.freshId, ev);
      FoundAfterSplit(k, k', s, p, added, id);
      ChoiceAfterSplit(k, k', s, child, id);
    }
    SameViewDecides(k, k', child, ev, previous);
  }

  /** Evidence that identified only the original, through the moved selector: while another selector still
      identifies the original it is in conflict for every child; otherwise it is the new product, and
      explicit for the child of the split alone. */
  lemma {:induction false} SplitTakesMoved(k: Knowledge, k': Knowledge, s: Split, p: Product, child: string,
                                           ev: AppEvidence, previous: AppClass)
    requires AcceptedSplit(k, k', s) && FindProduct(k.products, s.productId) == Some(p)
    requires 0 <= s.index < |p.selectors| && SelectorIdentifies(p.selectors[s.index], ev)
    requires IdentifyProducts(k.products, ev) == [s.productId]
    ensures var r := ResolveApplication(k', child, ev, previous);
            if Identifies(WithoutSelector(p, s.index), ev) then r.status == Conflict && r.productId == None
            else
              && r.productId == Some(s.freshId)
              && (r.status == Explicit <==> child == s.childId)
              && (r.status == Explicit ==> r.classification == s.classification)
  {
    hide Distinct, SplitList, IdentifyProducts, IdSet, AcceptedSplit, SelectorIdentifies, FindProduct, ChoiceFor,
         ApprovedBy,
         Identifies, WithoutSelector, SplitVariant, ResolveProductType, Candidates, BestRules, Suggestions,
             AutomaticRules;
    var p0, added := SplitParts(k, k', s);
    FoundAfterSplit(k, k', s, p0, added, s.productId);
    IdentifiedAfterSplit(k, k', s, p, added, ev);
    ChoiceAfterSplit(k, k', s, child, s.freshId);
    FreshUnchosen(k, k', s, child);
  }

  lemma {:induction false} FreshUnchosen(k: Knowledge, k': Knowledge, s: Split, child: string)
    requires AcceptedSplit(k, k', s)
    ensures ChoiceFor(k.bindings, child, s.freshId).None?
  {
    hide FindChoice, SplitVariant, Distinct, IdSet;
  }

  /** An explicit decision survives a split, with its class, exactly when the moved selector does not
      identify the evidence, or it alone does and the split was made for this child with that class. */
  lemma {:induction false} SplitKeepsExplicit(k: Knowledge, k': Knowledge, s: Split, p: Product, child: string,
                                              ev: AppEvidence, previous: AppClass)
    requires AcceptedSplit(k, k', s) && FindProduct(k.products, s.productId) == Some(p) && 0 <= s.index < |p.selectors|
    requires ResolveApplication(k, child, ev, previous).status == Explicit
    ensures var was, now := ResolveApplication(k, child, ev, previous), ResolveApplication(k', child, ev, previous);
            (now.status == Explicit && now.classification == was.classification)
            <==> !SelectorIdentifies(p.selectors[s.index], ev)
                 || (!Identifies(WithoutSelector(p, s.index), ev) && child == s.childId
                     && was.classification == s.classification)
  {
    hide Distinct, IdentifyProducts, IdSet, AcceptedSplit, SelectorIdentifies, FindProduct, ChoiceFor, Identifies,
         WithoutSelector,
         ResolveApplication, SplitVariant;
    ExplicitIs(k, child, ev, previous);
    if SelectorIdentifies(p.selectors[s.index], ev) {
      MovedIdentifies(k, s, p, ev);
      var identified := IdentifyProducts(k.products, ev);
      assert identified == [identified[0]];
      SplitTakesMoved(k, k', s, p, child, ev, previous);
    } else {
      SplitKeepsOthers(k, k', s, p, child, ev, previous);
    }
  }

  lemma {:induction false} MovedIdentifies(k: Knowledge, s: Split, p: Product, ev: AppEvidence)
    requires FindProduct(k.products, s.productId) == Some(p) && 0 <= s.index < |p.selectors|
    requires SelectorIdentifies(p.selectors[s.index], ev)
    ensures s.productId in IdentifyProducts(k.products, ev)
  {
    hide SelectorIdentifies, IdentifyProducts;
    assert p.selectors[s.index] in p.selectors && Identifies(p, ev);
    IdentifiedAre(k.products, ev, s.productId);
  }

  // ----- merging the new product back

  ghost predicate MergedBack(k: Knowledge, k': Knowledge, back: Knowledge, s: Split) {
    AcceptedSplit(k, k', s) && Merged(k', s.freshId, s.productId, s.childId) == Success(back)
  }

  lemma {:induction false} UntargetedRules(rules: seq<Rule>, sourceId: string, targetId: string)
    requires !Referenced(rules, sourceId)
    ensures Map(rules, (r: Rule) => Retarget(r, sourceId, targetId)) == rules
  {
    forall i | 0 <= i < |rules| ensures Retarget(rules[i], sourceId, targetId) == rules[i] {
      assert rules[i] in rules;
    }
  }

  /** The child of the split is left with a choice of the original, which it may not have had. */
  lemma {:induction false} ChoiceAfterBack(k: Knowledge, k': Knowledge, back: Knowledge, s: Split, child: string,
                                           id: string)
    requires MergedBack(k, k', back, s)
    ensures ApprovedBy(back.bindings, child) == ApprovedBy(k.bindings, child)
    ensures ChoiceFor(back.bindings, child, id)
            == if child == s.childId && id == s.productId && ChoiceFor(k.bindings, child, id).None?
               then Some(Choice(s.productId, s.classification, false)) else ChoiceFor(k.bindings, child, id)
  {
    hide AcceptedSplit, Merged, ChoiceFor, ApprovedBy;
    var p, added := SplitParts(k, k', s);
    FreshDiffers(k.products, p, s.freshId);
    ApprovedAfterSplit(k, k', s, child);
    ChoiceAfterSplit(k, k', s, child, id);
    ChoiceAfterSplit(k, k', s, child, s.freshId);
    ChoiceAfterSplit(k, k', s, child, s.productId);
    FreshUnchosen(k, k', s, child);
    ChoiceAfterMerge(k', back, s.freshId, s.productId, s.childId, child, id);
  }

  lemma {:induction false} FreshDiffers(products: seq<Product>, p: Product, freshId: string)
    requires p in products && freshId !in IdSet(products)
    ensures p.id != freshId
  {
  }

  lemma {:induction false} FoundAfterBack(k: Knowledge, k': Knowledge, back: Knowledge, s: Split, id: string)
    requires MergedBack(k, k', back, s) && FindProduct(k.products, id).Some?
    ensures FindProduct(back.products, id).Some?
    ensures FindProduct(back.products, id).value.type_ == FindProduct(k.products, id).value.type_
  {
    hide AcceptedSplit, Merged, Distinct, SplitList, MergedList, IdSet, AddMissing, WithoutSelector, FindProduct;
    var p, added := SplitParts(k, k', s);
    FreshDiffers(k.products, p, s.freshId);
    SplitMembers(k.products, p, s.index, added);
    FoundAfterSplit(k, k', s, p, added, id);
    WithoutKeepsId(p, s.index);
    var rest := WithoutSelector(p, s.index);
    FindProductByKey(k'.products, added);
    BackList(k', back, s, added, rest);
    MergedMembers(k'.products, added, rest);
    if id == p.id {
      FindProductByKey(back.products, rest.(selectors := AddMissing(rest.selectors, added.selectors)));
    } else {
      FoundIsNamed(k.products, id);
      var q := FindProduct(k.products, id).value;
      FreshDiffers(k.products, q, s.freshId);
      FoundIsNamed(k'.products, id);
      FindProductByKey(back.products, q);
    }
  }

  lemma {:induction false} FoundIsNamed(products: seq<Product>, id: string)
    requires FindProduct(products, id).Some?
    ensures FindProduct(products, id).value in products && FindProduct(products, id).value.id == id
  {
  }

  lemma {:induction false} BackList(k': Knowledge, back: Knowledge, s: Split, added: Product, rest: Product)
    requires Merged(k', s.freshId, s.productId, s.childId) == Success(back)
    requires FindProduct(k'.products, s.freshId) == Some(added) && FindProduct(k'.products, s.productId) == Some(rest)
    ensures back.products == MergedList(k'.products, added, rest)
    ensures back.rules == Map(k'.rules, (r: Rule) => Retarget(r, s.freshId, s.productId))
            && back.schemaVersion == k'.schemaVersion
  {
    hide MergedList, FindProduct, WithBinding;
  }

  lemma {:induction false} BackIdentifies(k: Knowledge, k': Knowledge, back: Knowledge, s: Split, ev: AppEvidence)
    requires MergedBack(k, k', back, s)
    ensures IdentifyProducts(back.products, ev) == IdentifyProducts(k.products, ev)
  {
    hide AcceptedSplit, Merged, IdentifyProducts, ChoiceFor;
    SplitThenMerge(k, k', s, ev);
  }

  lemma {:induction false} BackKeepsRules(k: Knowledge, k': Knowledge, back: Knowledge, s: Split)
    requires MergedBack(k, k', back, s) && !Referenced(k.rules, s.freshId)
    ensures back.rules == k.rules && back.schemaVersion == k.schemaVersion
  {
    hide AcceptedSplit, Distinct, SplitList, MergedList, IdSet, WithoutSelector, FindProduct, Referenced, Retarget,
         WithBinding;
    ApprovedAfterSplit(k, k', s, "");
    UntargetedRules(k.rules, s.freshId, s.productId);
  }

  /** A split and the merge that takes it back restore a resolution, but for the reason of the type, exactly
      unless it is that of the child of the split, which had no choice of the original, on evidence of the
      original alone: that one is explicit from then on. */
  lemma {:induction false} MergeBackRestores(k: Knowledge, k': Knowledge, back: Knowledge, s: Split, child: string,
                                             ev: AppEvidence, previous: AppClass)
    requires MergedBack(k, k', back, s) && !Referenced(k.rules, s.freshId)
    ensures Unexplained(ResolveApplication(back, child, ev, previous))
            == Unexplained(ResolveApplication(k, child, ev, previous))
            <==> !(child == s.childId && ChoiceFor(k.bindings, child, s.productId).None?
                   && IdentifyProducts(k.products, ev) == [s.productId])
  {
    hide MergedBack, IdentifyProducts, ChoiceFor, ApprovedBy, ResolveApplication, FindProduct, Referenced;
    BackIdentifies(k, k', back, s, ev);
    BackKeepsRules(k, k', back, s);
    var identified := IdentifyProducts(k.products, ev);
    var id := if |identified| == 1 then identified[0] else "";
    ChoiceAfterBack(k, k', back, s, child, id);
    ExplicitIs(k, child, ev, previous);
    ExplicitIs(back, child, ev, previous);
    if |identified| == 1 {
      assert id in identified && identified == [id];
      IdentifiedIsFound(k.products, ev, id);
      FoundAfterBack(k, k', back, s, id);
    }
    if !(child == s.childId && ChoiceFor(k.bindings, child, s.productId).None? && identified == [s.productId]) {
      SameViewDecides(k, back, child, ev, previous);
    }
  }
}
