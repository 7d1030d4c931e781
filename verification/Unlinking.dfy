/** What removing a selector, or a product with its last one, means for every later resolution. */
module Unlinking {
  import opened Wrappers
  import opened Sequences
  import opened Ordering
  import opened Evidence
  import opened Catalog
  import opened Decisions
  import opened Editing
  import opened EditingFacts
  import opened OrderIndependence
  import opened Merging
  import opened Splitting
  import opened SplitDecisions

  ghost predicate AcceptedUnlink(k: Knowledge, k': Knowledge, p: Product, index: int, childIds: seq<string>) {
    && Distinct(ProductIds(k.products)) && FindProduct(k.products, p.id) == Some(p) && 0 <= index < |p.selectors|
    && Unlinked(k, p.id, index, childIds) == Success(k')
  }

  /** The products that are left: without the product when it has no other selector. */
  function UnlinkedList(products: seq<Product>, p: Product, index: nat): seq<Product>
    requires index < |p.selectors|
  {
    if |p.selectors| > 1 then WithProduct(products, p.id,
                                          (x: Product) => x.(selectors := WithoutSelector(p, index).selectors))
    else Filter(products, (x: Product) => x.id != p.id)
  }

  lemma {:induction false} UnlinkParts(k: Knowledge, k': Knowledge, p: Product, index: int, childIds: seq<string>)
    requires AcceptedUnlink(k, k', p, index, childIds)
    ensures k'.products == UnlinkedList(k.products, p, index)
    ensures k' == k.(products := k'.products, bindings := k'.bindings)
    ensures k'.bindings == if |p.selectors| > 1 then k.bindings
                           else Map(k.bindings, (b: Binding) => Unchosen(b, childIds, p.id))
  {
    hide Distinct, WithProduct, Filter, Map, Referenced, ChosenOutside, WithoutSelector, FindProduct;
  }

  lemma {:induction false} UnlinkedMembers(products: seq<Product>, p: Product, index: nat)
    requires Distinct(ProductIds(products)) && p in products && index < |p.selectors|
    ensures Distinct(ProductIds(UnlinkedList(products, p, index)))
    ensures forall q :: q in UnlinkedList(products, p, index)
                        <==> (q in products && q.id != p.id) || (|p.selectors| > 1 && q == WithoutSelector(p, index))
  {
    if |p.selectors| > 1 {
      var update := (x: Product) => x.(selectors := WithoutSelector(p, index).selectors);
      UpdatedProducts(products, p.id, update);
      KeyIsUnique(products, (x: Product) => x.id);
      hide WithoutSelector, Distinct;
      assert forall x :: x in products && x.id == p.id ==> x == p;
    } else {
      DistinctAfterFilter(products, (x: Product) => x.id != p.id, (x: Product) => x.id);
    }
  }

  /** The product keeps exactly the evidence that its other selectors identify; no other product is touched. */
  lemma {:induction false} UnlinkIdentification(k: Knowledge, k': Knowledge, p: Product, index: int,
                                                childIds: seq<string>, ev: AppEvidence, id: string)
    requires AcceptedUnlink(k, k', p, index, childIds)
    ensures id in IdentifyProducts(k'.products, ev)
            <==> if id == p.id then Identifies(WithoutSelector(p, index), ev)
                 else id in IdentifyProducts(k.products, ev)
  {
    hide Distinct, UnlinkedList, IdentifyProducts, WithoutSelector, Identifies, Unlinked;
    UnlinkParts(k, k', p, index, childIds);
    FoundIsNamed(k.products, p.id);
    UnlinkedMembers(k.products, p, index);
    IdentifiedAre(k'.products, ev, id);
    IdentifiedAre(k.products, ev, id);
    WithoutKeepsId(p, index);
    LastSelector(p, index, ev);
  }

  lemma {:induction false} LastSelector(p: Product, index: nat, ev: AppEvidence)
    requires index < |p.selectors|
    ensures |p.selectors| <= 1 ==> !Identifies(WithoutSelector(p, index), ev)
    ensures Identifies(WithoutSelector(p, index), ev) ==> Identifies(p, ev)
  {
    hide SelectorIdentifies;
    assert WithoutSelector(p, index).selectors == p.selectors[..index] + p.selectors[index + 1..];
  }

  lemma {:induction false} FoundAfterUnlink(k: Knowledge, k': Knowledge, p: Product, index: int, childIds: seq<string>,
                                            id: string)
    requires AcceptedUnlink(k, k', p, index, childIds)
    ensures |p.selectors| > 1 ==> FindProduct(k'.products, p.id) == Some(WithoutSelector(p, index))
    ensures id != p.id && FindProduct(k.products, id).Some?
            ==> FindProduct(k'.products, id) == FindProduct(k.products, id)
  {
    hide Distinct, UnlinkedList, WithoutSelector, Unlinked, FindProduct;
    UnlinkParts(k, k', p, index, childIds);
    FoundIsNamed(k.products, p.id);
    UnlinkedMembers(k.products, p, index);
    WithoutKeepsId(p, index);
    if |p.selectors| > 1 {
      FindProductByKey(k'.products, WithoutSelector(p, index));
    }
    if id != p.id && FindProduct(k.products, id).Some? {
      FoundIsNamed(k.products, id);
      FindProductByKey(k'.products, FindProduct(k.products, id).value);
    }
  }

  /** Choices of other products and approvals stay; so do all choices while the product stays. */
  lemma {:induction false} ChoiceAfterUnlink(k: Knowledge, k': Knowledge, p: Product, index: int, childIds: seq<string>,
                                             child: string, id: string)
    requires AcceptedUnlink(k, k', p, index, childIds)
    ensures ApprovedBy(k'.bindings, child) == ApprovedBy(k.bindings, child)
    ensures |p.selectors| > 1 || id != p.id ==> ChoiceFor(k'.bindings, child, id) == ChoiceFor(k.bindings, child, id)
    ensures |p.selectors| == 1 ==> ChoiceFor(k'.bindings, child, p.id).None?
  {
    hide Distinct, UnlinkedList, Unlinked, FindChoice, ChosenOutside;
    UnlinkParts(k, k', p, index, childIds);
    if |p.selectors| == 1 {
      var update := (b: Binding) => Unchosen(b, childIds, p.id);
      FindAfterMap(k.bindings, update, (b: Binding) => b.childId == child);
      if child !in childIds {
        NobodyOutside(k, k', p, index, childIds, child);
      }
      var found := FindBinding(k.bindings, child);
      if found.Some? {
        UnchosenFinds(found.value, childIds, p.id, id);
      }
    }
  }

  lemma {:induction false} NobodyOutside(k: Knowledge, k': Knowledge, p: Product, index: int, childIds: seq<string>,
                                         child: string)
    requires AcceptedUnlink(k, k', p, index, childIds) && |p.selectors| == 1 && child !in childIds
    ensures ChoiceFor(k.bindings, child, p.id).None?
  {
    hide Distinct, FindChoice, Referenced;
  }

  lemma {:induction false} UnchosenFinds(b: Binding, childIds: seq<string>, productId: string, id: string)
    ensures id != productId ==> FindChoice(Unchosen(b, childIds, productId).products, id) == FindChoice(b.products, id)
    ensures b.childId in childIds ==> FindChoice(Unchosen(b, childIds, productId).products, productId).None?
  {
    if id != productId {
      FindAfterFilter(b.products, (c: Choice) => c.productId != productId, (c: Choice) => c.productId == id);
    }
  }

  /** As long as the selector does not matter to the product, the evidence identifies the same products. */
  lemma {:induction false} SameAfterUnlink(k: Knowledge, k': Knowledge, p: Product, index: int, childIds: seq<string>,
                                           ev: AppEvidence)
    requires AcceptedUnlink(k, k', p, index, childIds)
    requires Identifies(WithoutSelector(p, index), ev) <==> Identifies(p, ev)
    ensures IdentifyProducts(k'.products, ev) == IdentifyProducts(k.products, ev)
  {
    hide Distinct, SortedBy, IdentifyProducts, Identifies, UnlinkedList, Unlinked, FindProduct, WithoutSelector;
    var before, after := IdentifyProducts(k.products, ev), IdentifyProducts(k'.products, ev);
    FoundIsNamed(k.products, p.id);
    UnlinkParts(k, k', p, index, childIds);
    UnlinkedMembers(k.products, p, index);
    IdentifiedOnce(k.products, ev);
    IdentifiedOnce(k'.products, ev);
    IdentifiedProduct(k.products, p, ev);
    forall id ensures id in after <==> id in before {
      UnlinkIdentification(k, k', p, index, childIds, ev, id);
    }
    SameIdentified(before, after);
  }

  lemma {:induction false} SameViewAfterUnlink(k: Knowledge, k': Knowledge, p: Product, index: int,
                                               childIds: seq<string>, child: string, ev: AppEvidence)
    requires AcceptedUnlink(k, k', p, index, childIds)
    requires Identifies(WithoutSelector(p, index), ev) <==> Identifies(p, ev)
    ensures SameView(k, k', child, ev)
    ensures forall id :: IdentifyProducts(k.products, ev) == [id] && id != p.id ==> SameReason(k, k', ev, id)
  {
    hide Distinct, IdentifyProducts, Identifies, UnlinkedList, Unlinked, FindProduct, WithoutSelector, ChoiceFor,
         ApprovedBy, ReasonFor;
    var identified := IdentifyProducts(k.products, ev);
    SameAfterUnlink(k, k', p, index, childIds, ev);
    UnlinkParts(k, k', p, index, childIds);
    LastSelector(p, index, ev);
    WithoutKeepsId(p, index);
    FoundIsNamed(k.products, p.id);
    IdentifiedProduct(k.products, p, ev);
    var id := if |identified| == 1 then identified[0] else "";
    ChoiceAfterUnlink(k, k', p, index, childIds, child, id);
    FoundAfterUnlink(k, k', p, index, childIds, id);
    if |identified| == 1 {
      assert id in identified;
      IdentifiedIsFound(k.products, ev, id);
    }
  }

  /** Evidence that the removed selector does not identify resolves exactly as before, for every child. */
  lemma {:induction false} UnlinkKeepsOthers(k: Knowledge, k': Knowledge, p: Product, index: int, childIds: seq<string>,
                                             child: string, ev: AppEvidence, previous: AppClass)
    requires AcceptedUnlink(k, k', p, index, childIds) && !SelectorIdentifies(p.selectors[index], ev)
    ensures ResolveApplication(k', child, ev, previous) == ResolveApplication(k, child, ev, previous)
  {
    hide Distinct, IdentifyProducts, Identifies, Unlinked, FindProduct, WithoutSelector, ResolveApplication, ReasonFor,
         SelectorIdentifies, SameView;
    IdleSelector(p, index, ev);
    SameViewAfterUnlink(k, k', p, index, childIds, child, ev);
    ReasonWithout(p, index, ev);
    LastSelector(p, index, ev);
    FoundIsNamed(k.products, p.id);
    IdentifiedProduct(k.products, p, ev);
    FoundAfterUnlink(k, k', p, index, childIds, p.id);
    SameViewDecides(k, k', child, ev, previous);
  }

  lemma {:induction false} IdleSelector(p: Product, index: nat, ev: AppEvidence)
    requires index < |p.selectors| && !SelectorIdentifies(p.selectors[index], ev)
    ensures Identifies(WithoutSelector(p, index), ev) <==> Identifies(p, ev)
  {
    SplitSelectors(p, index, p.(selectors := [p.selectors[index]]), ev);
    SingleSelector(p.(selectors := [p.selectors[index]]), p.selectors[index], ev);
  }

  /** Evidence that another selector of the product identifies as well resolves as before, for every
      child, but for the reason of the type. */
  lemma {:induction false} UnlinkKeepsShared(k: Knowledge, k': Knowledge, p: Product, index: int, childIds: seq<string>,
                                             child: string, ev: AppEvidence, previous: AppClass)
    requires AcceptedUnlink(k, k', p, index, childIds) && Identifies(WithoutSelector(p, index), ev)
    ensures Unexplained(ResolveApplication(k', child, ev, previous))
            == Unexplained(ResolveApplication(k, child, ev, previous))
  {
    hide Identifies, Unlinked, FindProduct, WithoutSelector, ResolveApplication, SameView, Distinct;
    LastSelector(p, index, ev);
    SameViewAfterUnlink(k, k', p, index, childIds, child, ev);
    SameViewDecides(k, k', child, ev, previous);
  }

  /** An explicit decision survives an unlink, with its class, exactly when the removed selector does not
      identify the evidence or another selector of the product does. */
  lemma {:induction false} UnlinkKeepsExplicit(k: Knowledge, k': Knowledge, p: Product, index: int,
                                               childIds: seq<string>, child: string, ev: AppEvidence,
                                               previous: AppClass)
    requires AcceptedUnlink(k, k', p, index, childIds) && ResolveApplication(k, child, ev, previous).status == Explicit
    ensures var was, now := ResolveApplication(k, child, ev, previous), ResolveApplication(k', child, ev, previous);
            (now.status == Explicit && now.classification == was.classification)
            <==> !SelectorIdentifies(p.selectors[index], ev) || Identifies(WithoutSelector(p, index), ev)
  {
    hide Distinct, IdentifyProducts, Identifies, Unlinked, FindProduct, WithoutSelector, ResolveApplication, ChoiceFor,
         SelectorIdentifies;
    if !SelectorIdentifies(p.selectors[index], ev) {
      UnlinkKeepsOthers(k, k', p, index, childIds, child, ev, previous);
    } else if Identifies(WithoutSelector(p, index), ev) {
      UnlinkKeepsShared(k, k', p, index, childIds, child, ev, previous);
    } else {
      ExplicitIs(k, child, ev, previous);
      ExplicitIs(k', child, ev, previous);
      NothingLeft(k, k', p, index, childIds, ev);
    }
  }

  /** Evidence that only the removed selector identified, as this product alone, identifies nothing. */
  lemma {:induction false} NothingLeft(k: Knowledge, k': Knowledge, p: Product, index: int, childIds: seq<string>,
                                       ev: AppEvidence)
    requires AcceptedUnlink(k, k', p, index, childIds)
    requires SelectorIdentifies(p.selectors[index], ev) && !Identifies(WithoutSelector(p, index), ev)
    ensures p.id in IdentifyProducts(k.products, ev)
    ensures |IdentifyProducts(k.products, ev)| == 1 ==> IdentifyProducts(k'.products, ev) == []
  {
    hide Distinct, IdentifyProducts, Identifies, Unlinked, FindProduct, WithoutSelector;
    var before, after := IdentifyProducts(k.products, ev), IdentifyProducts(k'.products, ev);
    FoundIsNamed(k.products, p.id);
    IdentifiedProduct(k.products, p, ev);
    SelectorOfProduct(p, index, ev);
    if |before| == 1 && after != [] {
      assert before == [p.id];
      UnlinkIdentification(k, k', p, index, childIds, ev, after[0]);
    }
  }

  lemma {:induction false} SelectorOfProduct(p: Product, index: nat, ev: AppEvidence)
    requires index < |p.selectors| && SelectorIdentifies(p.selectors[index], ev)
    ensures Identifies(p, ev)
  {
  }
}
