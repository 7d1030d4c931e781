/** What splitting a product means for identification, and how a merge undoes it. */
module Splitting {
  import opened Wrappers
  import opened Sequences
  import opened Text
  import opened Ordering
  import opened Evidence
  import opened Catalog
  import opened Editing
  import opened EditingFacts
  import opened OrderIndependence
  import opened Merging

  /** The id of the new product is not in use anywhere in the catalogue. */
  ghost predicate Unused(k: Knowledge, freshId: string) {
    freshId !in IdSet(k.products) && forall b :: b in k.bindings ==> FindChoice(b.products, freshId).None?
  }

  datatype Split = Split(productId: string, index: int, freshId: string, name: string, childId: string,
                         classification: AppClass)

  ghost predicate AcceptedSplit(k: Knowledge, k': Knowledge, s: Split) {
    && Distinct(ProductIds(k.products))
    && Unused(k, s.freshId)
    && SplitVariant(k, s.productId, s.index, s.freshId, s.name, s.childId, s.classification) == Success(k')
  }

  function SplitList(products: seq<Product>, p: Product, index: nat, added: Product): seq<Product>
    requires index < |p.selectors|
  {
    WithProduct(products, p.id, (x: Product) => x.(selectors := WithoutSelector(p, index).selectors)) + [added]
  }

  /** The product that is split, and the new one that takes one of its selectors. */
  lemma {:induction false} SplitParts(k: Knowledge, k': Knowledge, s: Split) returns (p: Product, added: Product)
    requires AcceptedSplit(k, k', s)
    ensures p in k.products && p.id == s.productId && 0 <= s.index < |p.selectors|
    ensures added.id == s.freshId && added.selectors == [p.selectors[s.index]]
    ensures Distinct(ProductIds(k.products)) && s.freshId !in IdSet(k.products)
    ensures k'.products == SplitList(k.products, p, s.index, added)
  {
    hide WithBinding, Distinct, Trim, IdSet;
    p := FindProduct(k.products, s.productId).value;
    added := Product(s.freshId, Trim(s.name), p.type_, [p.selectors[s.index]]);
  }

  // ----- identification

  lemma {:induction false} SplitMembers(products: seq<Product>, p: Product, index: nat, added: Product)
    requires Distinct(ProductIds(products)) && p in products && index < |p.selectors| && added.id !in IdSet(products)
    ensures Distinct(ProductIds(SplitList(products, p, index, added)))
    ensures forall q :: q in SplitList(products, p, index, added)
                        <==> (q in products && q.id != p.id) || q == WithoutSelector(p, index) || q == added
  {
    var update := (x: Product) => x.(selectors := WithoutSelector(p, index).selectors);
    UpdatedProducts(products, p.id, update);
    KeyIsUnique(products, (x: Product) => x.id);
    MapConcat(WithProduct(products, p.id, update), [added], (x: Product) => x.id);
    assert forall i :: 0 <= i < |products| ==> ProductIds(products)[i] == products[i].id && products[i] in products;
    assert added.id !in ProductIds(products);
    hide IdSet, WithoutSelector;
    assert forall x :: x in products && x.id == p.id ==> x == p;
  }

  lemma {:induction false} SplitSelectors(p: Product, index: nat, added: Product, ev: AppEvidence)
    requires index < |p.selectors| && added.selectors == [p.selectors[index]]
    ensures Identifies(p, ev) <==> Identifies(WithoutSelector(p, index), ev) || Identifies(added, ev)
  {
    hide SelectorIdentifies;
    var rest := WithoutSelector(p, index).selectors;
    assert p.selectors == p.selectors[..index] + [p.selectors[index]] + p.selectors[index + 1..];
    forall s ensures s in p.selectors <==> s in rest || s == p.selectors[index] {
    }
  }

  /** The split list identifies a product that is neither of the two exactly when it was identified before. */
  lemma {:induction false} SplitIdentification(products: seq<Product>, p: Product, index: nat, added: Product,
                                               ev: AppEvidence, id: string)
    requires Distinct(ProductIds(products)) && p in products && index < |p.selectors| && added.id !in IdSet(products)
    ensures id in IdentifyProducts(SplitList(products, p, index, added), ev)
            <==> if id == p.id then Identifies(WithoutSelector(p, index), ev)
                 else if id == added.id then Identifies(added, ev)
                 else id in IdentifyProducts(products, ev)
  {
    SplitMembers(products, p, index, added);
    assert p.id in IdSet(products);
    assert forall x :: x in products ==> x.id != added.id;
    hide Distinct, SplitList, IdentifyProducts, Identifies, IdSet;
    IdentifiedAre(SplitList(products, p, index, added), ev, id);
    IdentifiedAre(products, ev, id);
  }

  /** Evidence identified the original before exactly when it identifies the original or the new
      product after, and no other product gains or loses evidence. */
  lemma {:induction false} SplitDividesEvidence(k: Knowledge, k': Knowledge, s: Split, ev: AppEvidence, id: string)
    requires AcceptedSplit(k, k', s)
    ensures s.productId in IdentifyProducts(k.products, ev)
            <==> s.productId in IdentifyProducts(k'.products, ev) || s.freshId in IdentifyProducts(k'.products, ev)
    ensures id != s.productId && id != s.freshId
            ==> (id in IdentifyProducts(k'.products, ev) <==> id in IdentifyProducts(k.products, ev))
  {
    var p, added := SplitParts(k, k', s);
    SplitSelectors(p, s.index, added, ev);
    IdentifiedProduct(k.products, p, ev);
    assert p.id in IdSet(k.products);
    hide Distinct, SplitList, IdentifyProducts, Identifies, IdSet, AcceptedSplit;
    SplitIdentification(k.products, p, s.index, added, ev, id);
    SplitIdentification(k.products, p, s.index, added, ev, p.id);
    SplitIdentification(k.products, p, s.index, added, ev, added.id);
  }

  // ----- no selector is lost or invented

  function AllSelectors(products: seq<Product>): seq<Selector> {
    if products == [] then [] else products[0].selectors + AllSelectors(products[1..])
  }

  lemma {:induction false} SelectorsOfConcat(products: seq<Product>, more: seq<Product>)
    ensures AllSelectors(products + more) == AllSelectors(products) + AllSelectors(more)
  {
    if products == [] {
      assert products + more == more;
    } else {
      assert (products + more)[1..] == products[1..] + more;
      SelectorsOfConcat(products[1..], more);
    }
  }

  lemma {:induction false} UpdatedBetween(products: seq<Product>, p: Product, update: Product -> Product)
    returns (before: seq<Product>, after: seq<Product>)
    requires Distinct(ProductIds(products)) && p in products
    ensures products == before + [p] + after
    ensures WithProduct(products, p.id, update) == before + [update(p)] + after
  {
    hide Distinct, Map;
    KeyIsUnique(products, (x: Product) => x.id);
    var first, rest := products[0], products[1..];
    assert products == [first] + rest;
    if first.id == p.id {
      assert first in products;
      before, after := [], rest;
    } else {
      DistinctTail(ProductIds(products));
      assert ProductIds(products)[1..] == ProductIds(rest);
      before, after := UpdatedBetween(rest, p, update);
      before := [first] + before;
    }
  }

  lemma {:induction false} DistinctTail<T>(s: seq<T>)
    requires s != [] && Distinct(s)
    ensures Distinct(s[1..])
  {
  }

  lemma {:induction false} MoveToEnd<T>(before: seq<T>, left: seq<T>, x: T, right: seq<T>, after: seq<T>)
    ensures multiset(before + (left + right) + after + [x]) == multiset(before + (left + [x] + right) + after)
  {
  }

  /** A split moves a selector: the multiset of all selectors in the catalogue stays the same. */
  lemma {:induction false} SplitConservesSelectors(k: Knowledge, k': Knowledge, s: Split)
    requires AcceptedSplit(k, k', s)
    ensures multiset(AllSelectors(k'.products)) == multiset(AllSelectors(k.products))
  {
    var p, added := SplitParts(k, k', s);
    hide AcceptedSplit, AllSelectors, WithProduct;
    var before, after := UpdatedBetween(k.products, p,
                                        (x: Product) => x.(selectors := WithoutSelector(p, s.index).selectors));
    SelectorMoves(before, p, s.index, after, added);
  }

  lemma {:induction false} SelectorMoves(before: seq<Product>, p: Product, index: nat, after: seq<Product>,
                                         added: Product)
    requires index < |p.selectors| && added.selectors == [p.selectors[index]]
    ensures multiset(AllSelectors(before + [WithoutSelector(p, index)] + after + [added]))
            == multiset(AllSelectors(before + [p] + after))
  {
    var left, right := p.selectors[..index], p.selectors[index + 1..];
    var rest := WithoutSelector(p, index);
    SelectorsOfConcat(before + [rest] + after, [added]);
    SelectorsOfConcat(before + [rest], after);
    SelectorsOfConcat(before, [rest]);
    SelectorsOfConcat(before + [p], after);
    SelectorsOfConcat(before, [p]);
    assert p.selectors == left + [p.selectors[index]] + right;
    MoveToEnd(AllSelectors(before), left, p.selectors[index], right, AllSelectors(after));
  }

  // ----- merging back

  lemma {:induction false} ChoiceAfterSplit(k: Knowledge, k': Knowledge, s: Split, child: string, productId: string)
    requires AcceptedSplit(k, k', s)
    ensures ChoiceFor(k'.bindings, child, productId)
            == if child == s.childId && productId == s.freshId then Some(Choice(s.freshId, s.classification, false))
               else ChoiceFor(k.bindings, child, productId)
  {
    hide FindProduct, Distinct, Trim, IdSet, WithProduct;
    var update := (b: Binding) => b.(products := b.products + [Choice(s.freshId, s.classification, false)]);
    UpdatedBinding(k.bindings, s.childId, update, child);
    var b := BindingOrEmpty(k.bindings, s.childId);
    FindConcat(b.products, [Choice(s.freshId, s.classification, false)], (c: Choice) => c.productId == productId);
  }

  lemma {:induction false} FreshChosenOnlyHere(k: Knowledge, k': Knowledge, s: Split)
    requires AcceptedSplit(k, k', s)
    ensures !ChosenByOthers(k'.bindings, s.childId, s.freshId)
  {
    hide FindProduct, Distinct, Trim, IdSet, WithProduct, FindChoice;
    UpdatedMembers(k.bindings, s.childId,
                   (b: Binding) => b.(products := b.products + [Choice(s.freshId, s.classification, false)]));
  }

  /** The new product can be merged back exactly when the child's choice of the original, if there is
      one, has the class given to the new product; the merge then restores identification. */
  lemma {:induction false} SplitThenMerge(k: Knowledge, k': Knowledge, s: Split, ev: AppEvidence)
    requires AcceptedSplit(k, k', s)
    ensures var back := Merged(k', s.freshId, s.productId, s.childId);
            var own := ChoiceFor(k.bindings, s.childId, s.productId);
            && (back.Success? <==> own.None? || own.value.classification == s.classification)
            && (back.Success? ==> IdentifyProducts(back.value.products, ev) == IdentifyProducts(k.products, ev))
  {
    var p, added := SplitParts(k, k', s);
    var own := ChoiceFor(k.bindings, s.childId, s.productId);
    var back := Merged(k', s.freshId, s.productId, s.childId);
    SplitMembers(k.products, p, s.index, added);
    FreshChosenOnlyHere(k, k', s);
    ChoiceAfterSplit(k, k', s, s.childId, s.freshId);
    ChoiceAfterSplit(k, k', s, s.childId, s.productId);
    var rest := WithoutSelector(p, s.index);
    FindProductByKey(k'.products, rest);
    FindProductByKey(k'.products, added);
    assert p.id in IdSet(k.products);
    assert back.Success? <==> own.None? || own.value.classification == s.classification by {
      hide Distinct, SplitList, IdSet, AcceptedSplit, FindProduct, ChoiceFor, ChosenByOthers, MergedList;
    }
    if back.Success? {
      assert back.value.products == MergedList(k'.products, added, rest);
      MergeBackIdentifies(k.products, p, s.index, added, ev);
    }
  }

  lemma {:induction false} MergeBackIdentifies(products: seq<Product>, p: Product, index: nat, added: Product,
                                               ev: AppEvidence)
    requires Distinct(ProductIds(products)) && p in products && index < |p.selectors| && added.id !in IdSet(products)
    requires added.selectors == [p.selectors[index]]
    ensures IdentifyProducts(MergedList(SplitList(products, p, index, added), added, WithoutSelector(p, index)), ev)
            == IdentifyProducts(products, ev)
  {
    var rest := WithoutSelector(p, index);
    var divided := SplitList(products, p, index, added);
    var back := MergedList(divided, added, rest);
    SplitMembers(products, p, index, added);
    assert p.id in IdSet(products);
    MergedMembers(divided, added, rest);
    IdentifiedOnce(back, ev);
    IdentifiedOnce(products, ev);
    SplitSelectors(p, index, added, ev);
    IdentifiedProduct(products, p, ev);
    assert added.id !in IdentifyProducts(products, ev) by { IdentifiedAre(products, ev, added.id); }
    hide Distinct, SortedBy, SplitList, MergedList, IdentifyProducts, Identifies, IdSet;
    forall id ensures id in IdentifyProducts(back, ev) <==> id in IdentifyProducts(products, ev) {
      MergedIdentification(divided, added, rest, ev, id);
      SplitIdentification(products, p, index, added, ev, id);
    }
    SameIdentified(IdentifyProducts(back, ev), IdentifyProducts(products, ev));
  }
}
