/** What merging two products means for every later resolution. */
module Merging {
  import opened Wrappers
  import opened Sequences
  import opened Ordering
  import opened Evidence
  import opened Catalog
  import opened Editing
  import opened EditingFacts
  import opened OrderIndependence

  // ----- merge: identification

  ghost predicate AcceptedMerge(k: Knowledge, k': Knowledge, sourceId: string, targetId: string, childId: string) {
    Distinct(ProductIds(k.products)) && Merged(k, sourceId, targetId, childId) == Success(k')
  }

  function Renamed(id: string, sourceId: string, targetId: string): string {
    if id == sourceId then targetId else id
  }

  function RenamedIdentity(id: Option<string>, sourceId: string, targetId: string): Option<string> {
    match id
    case None => None
    case Some(was) => Some(Renamed(was, sourceId, targetId))
  }

  /** The two products of an accepted merge. */
  lemma {:induction false} MergeParts(k: Knowledge, k': Knowledge, sourceId: string, targetId: string, childId: string)
    returns (source: Product, target: Product)
    requires AcceptedMerge(k, k', sourceId, targetId, childId)
    ensures source in k.products && target in k.products && source.id == sourceId && target.id == targetId
    ensures sourceId != targetId && Distinct(ProductIds(k.products))
    ensures k'.products == MergedList(k.products, source, target)
  {
    hide MergedList, WithBinding, Map, Distinct;
    source, target := FindProduct(k.products, sourceId).value, FindProduct(k.products, targetId).value;
  }

  lemma {:induction false} MergedSelectors(source: Product, target: Product, ev: AppEvidence)
    ensures Identifies(target.(selectors := AddMissing(target.selectors, source.selectors)), ev)
            <==> Identifies(target, ev) || Identifies(source, ev)
  {
  }

  lemma {:induction false} MergedMembers(products: seq<Product>, source: Product, target: Product)
    requires Distinct(ProductIds(products)) && source in products && target in products && source.id != target.id
    ensures Distinct(ProductIds(MergedList(products, source, target)))
    ensures forall q :: q in MergedList(products, source, target)
                        <==> (q in products && q.id != source.id && q.id != target.id)
                             || q == target.(selectors := AddMissing(target.selectors, source.selectors))
  {
    var selectors := AddMissing(target.selectors, source.selectors);
    var update := (p: Product) => p.(selectors := selectors);
    UpdatedProducts(products, target.id, update);
    DistinctAfterFilter(WithProduct(products, target.id, update), (p: Product) => p.id != source.id,
                        (p: Product) => p.id);
    KeyIsUnique(products, (p: Product) => p.id);
    hide Distinct, AddMissing;
    assert forall p :: p in products && p.id == target.id ==> p == target;
  }

  lemma {:induction false} MergedIdentification(products: seq<Product>, source: Product, target: Product,
                                                ev: AppEvidence, id: string)
    requires Distinct(ProductIds(products)) && source in products && target in products && source.id != target.id
    ensures id in IdentifyProducts(MergedList(products, source, target), ev)
            <==> if id == source.id then false
                 else if id == target.id then Identifies(source, ev) || Identifies(target, ev)
                 else id in IdentifyProducts(products, ev)
  {
    MergedMembers(products, source, target);
    MergedSelectors(source, target, ev);
    KeyIsUnique(products, (p: Product) => p.id);
    hide Distinct, AddMissing, MergedList, IdentifyProducts, Identifies;
    IdentifiedAre(MergedList(products, source, target), ev, id);
    IdentifiedAre(products, ev, id);
  }

  lemma {:induction false} IdentifiedProduct(products: seq<Product>, p: Product, ev: AppEvidence)
    requires Distinct(ProductIds(products)) && p in products
    ensures p.id in IdentifyProducts(products, ev) <==> Identifies(p, ev)
  {
    KeyIsUnique(products, (x: Product) => x.id);
    hide Distinct, IdentifyProducts, Identifies;
    IdentifiedAre(products, ev, p.id);
  }

  /** Identification after a merge is identification before it, with the source renamed to the target. */
  lemma {:induction false} MergeRenames(k: Knowledge, k': Knowledge, sourceId: string, targetId: string,
                                        childId: string, ev: AppEvidence)
    requires AcceptedMerge(k, k', sourceId, targetId, childId)
    ensures forall id :: id in IdentifyProducts(k'.products, ev)
                         <==> exists was :: was in IdentifyProducts(k.products, ev)
                                  && id == Renamed(was, sourceId, targetId)
    ensures Distinct(IdentifyProducts(k'.products, ev)) && SortedBy(IdentifyProducts(k'.products, ev), AtMost)
  {
    var source, target := MergeParts(k, k', sourceId, targetId, childId);
    MergedMembers(k.products, source, target);
    IdentifiedOnce(k'.products, ev);
    IdentifiedProduct(k.products, source, ev);
    IdentifiedProduct(k.products, target, ev);
    hide Distinct, SortedBy, MergedList, IdentifyProducts, Identifies, Merged, AcceptedMerge;
    var before, after := IdentifyProducts(k.products, ev), IdentifyProducts(k'.products, ev);
    forall id ensures id in after <==> exists was :: was in before && id == Renamed(was, sourceId, targetId) {
      MergedIdentification(k.products, source, target, ev, id);
      assert Renamed(id, sourceId, targetId) == id || id == sourceId;
      assert Renamed(sourceId, sourceId, targetId) == targetId;
    }
  }

  /** One product before is one product after. */
  lemma {:induction false} MergeKeepsSingle(k: Knowledge, k': Knowledge, sourceId: string, targetId: string,
                                            childId: string, ev: AppEvidence, id: string)
    requires AcceptedMerge(k, k', sourceId, targetId, childId)
    requires IdentifyProducts(k.products, ev) == [id]
    ensures IdentifyProducts(k'.products, ev) == [Renamed(id, sourceId, targetId)]
  {
    var before := IdentifyProducts(k.products, ev);
    MergeRenames(k, k', sourceId, targetId, childId, ev);
    assert before[0] in before;
    SingleIdentified(IdentifyProducts(k'.products, ev), Renamed(id, sourceId, targetId));
  }

  // ----- merge: choices

  lemma {:induction false} MergedChoice(b: Binding, sourceId: string, targetId: string, productId: string)
    requires sourceId != targetId
    ensures FindChoice(MergedChoices(b, sourceId, targetId).products, productId)
            == if productId == sourceId then None
               else if productId == targetId && FindChoice(b.products, targetId).None?
                   && FindChoice(b.products, sourceId).Some?
               then Some(FindChoice(b.products, sourceId).value.(productId := targetId))
               else FindChoice(b.products, productId)
  {
    var left, right := FindChoice(b.products, sourceId), FindChoice(b.products, targetId);
    var extra := if left.Some? && right.None? then [left.value.(productId := targetId)] else [];
    var wanted := (c: Choice) => c.productId == productId;
    FindConcat(Others(b.products, sourceId), extra, wanted);
    if productId != sourceId {
      FindAfterFilter(b.products, (c: Choice) => c.productId != sourceId, wanted);
    }
  }

  /** Which choice every child has for every product after a merge. A choice of the source can only
      have been the acting child's: the merge is refused while another child has one. */
  lemma {:induction false} ChoiceAfterMerge(k: Knowledge, k': Knowledge, sourceId: string, targetId: string,
                                            childId: string, child: string, productId: string)
    requires Merged(k, sourceId, targetId, childId) == Success(k')
    ensures ChoiceFor(k'.bindings, child, productId)
            == if productId == sourceId then None
               else if productId == targetId && ChoiceFor(k.bindings, child, targetId).None?
                       && ChoiceFor(k.bindings, child, sourceId).Some?
               then Some(ChoiceFor(k.bindings, child, sourceId).value.(productId := targetId))
               else ChoiceFor(k.bindings, child, productId)
    ensures ApprovedBy(k'.bindings, child) == ApprovedBy(k.bindings, child)
  {
    hide MergedList, FindChoice, FindProduct;
    var update := (b: Binding) => MergedChoices(b, sourceId, targetId);
    assert child != childId ==> ChoiceFor(k.bindings, child, sourceId).None?;
    if FindBinding(k.bindings, childId).Some? {
      UpdatedBinding(k.bindings, childId, update, child);
      if child == childId {
        MergedChoice(FindBinding(k.bindings, childId).value, sourceId, targetId, productId);
      }
    }
  }

  /** The class that a child chose for a product is the class of its new product. */
  lemma {:induction false} ClassAfterMerge(k: Knowledge, k': Knowledge, sourceId: string, targetId: string,
                                           childId: string, child: string, id: string)
    requires Merged(k, sourceId, targetId, childId) == Success(k')
    requires ChoiceFor(k.bindings, child, id).Some?
    ensures ChoiceFor(k'.bindings, child, Renamed(id, sourceId, targetId)).Some?
    ensures ChoiceFor(k'.bindings, child, Renamed(id, sourceId, targetId)).value.classification
            == ChoiceFor(k.bindings, child, id).value.classification
  {
    ChoiceAfterMerge(k, k', sourceId, targetId, childId, child, Renamed(id, sourceId, targetId));
  }

  /** Every explicit decision, for every child and all evidence, survives a merge with its class. */
  lemma {:induction false} MergeKeepsExplicit(k: Knowledge, k': Knowledge, sourceId: string, targetId: string,
                                              childId: string, child: string, ev: AppEvidence, previous: AppClass)
    requires AcceptedMerge(k, k', sourceId, targetId, childId)
    requires ResolveApplication(k, child, ev, previous).status == Explicit
    ensures ResolveApplication(k', child, ev, previous).status == Explicit
    ensures ResolveApplication(k', child, ev, previous).classification
            == ResolveApplication(k, child, ev, previous).classification
    ensures ResolveApplication(k', child, ev, previous).productId
            == RenamedIdentity(ResolveApplication(k, child, ev, previous).productId, sourceId, targetId)
  {
    assert Merged(k, sourceId, targetId, childId) == Success(k');
    hide Distinct, IdentifyProducts, Merged, AcceptedMerge, ChoiceFor, ResolveApplication;
    ExplicitIs(k, child, ev, previous);
    ExplicitIs(k', child, ev, previous);
    var id := IdentifyProducts(k.products, ev)[0];
    assert IdentifyProducts(k.products, ev) == [id];
    MergeKeepsSingle(k, k', sourceId, targetId, childId, ev, id);
    ClassAfterMerge(k, k', sourceId, targetId, childId, child, id);
  }

  // ----- merge: evidence about other products

  lemma {:induction false} FilterAfterMap<T>(s: seq<T>, f: T -> T, p: T -> bool)
    requires forall x :: x in s ==> p(f(x)) == p(x) && (p(x) ==> f(x) == x)
    ensures Filter(Map(s, f), p) == Filter(s, p)
  {
    if s != [] {
      assert Map(s, f)[1..] == Map(s[1..], f);
      FilterAfterMap(s[1..], f, p);
    }
  }

  lemma {:induction false} MergeKeepsIdentified(k: Knowledge, k': Knowledge, sourceId: string, targetId: string,
                                                childId: string, ev: AppEvidence)
    requires AcceptedMerge(k, k', sourceId, targetId, childId)
    requires sourceId !in IdentifyProducts(k.products, ev) && targetId !in IdentifyProducts(k.products, ev)
    ensures IdentifyProducts(k'.products, ev) == IdentifyProducts(k.products, ev)
  {
    var before, after := IdentifyProducts(k.products, ev), IdentifyProducts(k'.products, ev);
    MergeRenames(k, k', sourceId, targetId, childId, ev);
    IdentifiedOnce(k.products, ev);
    hide Distinct, SortedBy, IdentifyProducts, Merged;
    forall id ensures id in after <==> id in before {
      assert Renamed(id, sourceId, targetId) == id || id == sourceId;
    }
    SameIdentified(before, after);
  }

  /** Products other than the two are found as they were. */
  lemma {:induction false} MergeKeepsProduct(k: Knowledge, k': Knowledge, sourceId: string, targetId: string,
                                             childId: string, id: string)
    requires AcceptedMerge(k, k', sourceId, targetId, childId)
    requires id != sourceId && id != targetId && FindProduct(k.products, id).Some?
    ensures FindProduct(k'.products, id) == FindProduct(k.products, id)
  {
    var source, target := MergeParts(k, k', sourceId, targetId, childId);
    var p := FindProduct(k.products, id).value;
    MergedMembers(k.products, source, target);
    hide Distinct, MergedList, Merged, AcceptedMerge, AddMissing;
    assert p in k'.products;
    FindProductByKey(k'.products, p);
  }

  lemma {:induction false} IdentifiedIsFound(products: seq<Product>, ev: AppEvidence, id: string)
    requires id in IdentifyProducts(products, ev)
    ensures FindProduct(products, id).Some?
  {
    hide IdentifyProducts, Identifies;
    IdentifiedAre(products, ev, id);
  }

  lemma {:induction false} MergeKeepsFacts(k: Knowledge, k': Knowledge, sourceId: string, targetId: string,
                                           childId: string, child: string, ev: AppEvidence)
    requires AcceptedMerge(k, k', sourceId, targetId, childId)
    requires sourceId !in IdentifyProducts(k.products, ev) && targetId !in IdentifyProducts(k.products, ev)
    ensures FactsFor(k', child, ev) == FactsFor(k, child, ev)
  {
    hide Distinct, IdentifyProducts, Merged, ChoiceFor, ApprovedBy, FindProduct;
    var before := IdentifyProducts(k.products, ev);
    var source, target := MergeParts(k, k', sourceId, targetId, childId);
    MergeKeepsIdentified(k, k', sourceId, targetId, childId, ev);
    if |before| == 1 {
      assert before[0] in before;
      IdentifiedIsFound(k.products, ev, before[0]);
      MergeKeepsProduct(k, k', sourceId, targetId, childId, before[0]);
      ChoiceAfterMerge(k, k', sourceId, targetId, childId, child, before[0]);
    }
    ChoiceAfterMerge(k, k', sourceId, targetId, childId, child, targetId);
  }

  lemma {:induction false} MergeKeepsCandidates(rules: seq<Rule>, sourceId: string, targetId: string,
                                                schemaVersion: nat, f: Facts, ev: AppEvidence)
    requires sourceId != "" && targetId != ""
    requires sourceId !in f.identified && targetId !in f.identified
    ensures Candidates(Map(rules, (r: Rule) => Retarget(r, sourceId, targetId)), schemaVersion, f, ev)
            == Candidates(rules, schemaVersion, f, ev)
  {
    hide Matches, Map, Filter;
    FilterAfterMap(rules, (r: Rule) => Retarget(r, sourceId, targetId),
                   (r: Rule) => IsCandidate(schemaVersion, f.approved, f.ProductId(), f.typeInfo, ev, r));
  }

  /** Evidence that identified neither product resolves exactly as before, for every child. */
  lemma {:induction false} MergeKeepsOthers(k: Knowledge, k': Knowledge, sourceId: string, targetId: string,
                                            childId: string, child: string, ev: AppEvidence, previous: AppClass)
    requires AcceptedMerge(k, k', sourceId, targetId, childId)
    requires sourceId != "" && targetId != ""
    requires sourceId !in IdentifyProducts(k.products, ev) && targetId !in IdentifyProducts(k.products, ev)
    ensures ResolveApplication(k', child, ev, previous) == ResolveApplication(k, child, ev, previous)
  {
    hide Distinct, IdentifyProducts, ChoiceFor, ApprovedBy, FindProduct, Candidates, DecideByRules, MergedList,
         WithBinding, Map,
         MergedChoices, ChosenByOthers;
    MergeKeepsFacts(k, k', sourceId, targetId, childId, child, ev);
    var f := FactsFor(k, child, ev);
    MergeKeepsCandidates(k.rules, sourceId, targetId, k.schemaVersion, f, ev);
  }
}
