/** When each edit is accepted and which refusal it gives otherwise, and what it makes of names, types and
    the fields of rules and choices. */
module EditConditions {
  import opened Wrappers
  import opened Sequences
  import opened Text
  import opened Evidence
  import opened Catalog
  import opened Editing
  import opened EditingFacts
  import opened Merging
  import opened Splitting
  import opened Children

  predicate HasProduct(k: Knowledge, id: string) { exists p :: p in k.products && p.id == id }

  predicate HasChoice(k: Knowledge, child: string, id: string) { ChoiceFor(k.bindings, child, id).Some? }

  predicate Blank(s: string) { forall c :: c in s ==> IsSpace(c) }

  lemma {:induction false} FindIs(k: Knowledge, id: string)
    ensures FindProduct(k.products, id).Some? <==> HasProduct(k, id)
    ensures FindProduct(k.products, id).Some? ==> FindProduct(k.products, id).value.id == id
  {
  }

  /** Trimming takes the spaces at both ends and nothing else. */
  lemma {:induction false} TrimIs(s: string) returns (left: string, right: string)
    ensures s == left + Trim(s) + right && Blank(left) && Blank(right)
    ensures Trim(s) != "" ==> !IsSpace(Trim(s)[0]) && !IsSpace(Trim(s)[|Trim(s)| - 1])
    ensures Trim(s) == "" <==> Blank(s)
  {
    hide IsSpace;
    if s == "" {
      left, right := "", "";
    } else if IsSpace(s[0]) {
      left, right := TrimIs(s[1..]);
      assert s == [s[0]] + s[1..];
      left := [s[0]] + left;
    } else if IsSpace(s[|s| - 1]) {
      left, right := TrimIs(s[..|s| - 1]);
      assert s == s[..|s| - 1] + [s[|s| - 1]];
      right := right + [s[|s| - 1]];
      assert s[0] in s && !Blank(s);
      assert s[0] in s[..|s| - 1];
    } else {
      left, right := "", "";
      assert s[0] in s;
    }
  }

  // ----- classify

  lemma {:induction false} ClassifyIsAccepted(k: Knowledge, childIds: seq<string>, productId: string, class_: AppClass)
    ensures ClassifyFor(k, childIds, productId, class_).Success? <==> childIds == [] || class_ != Unclassified
    ensures ClassifyFor(k, childIds, productId, class_).Failure?
            ==> ClassifyFor(k, childIds, productId, class_).error == ClassMissing
    decreases |childIds|
  {
    if childIds != [] {
      ClassifyIsAccepted(k, childIds[..|childIds| - 1], productId, class_);
    }
  }

  predicate WasEnhanced(k: Knowledge, child: string, id: string) {
    HasChoice(k, child, id) && ChoiceFor(k.bindings, child, id).value.enhancedBlocking
  }

  /** Enhanced blocking survives a classification exactly when the new class is blocked. */
  lemma {:induction false} EnhancedSurvives(k: Knowledge, k': Knowledge, childIds: seq<string>, id: string,
                                            class_: AppClass, child: string)
    requires ClassifyFor(k, childIds, id, class_) == Success(k') && child in childIds
    ensures ChoiceFor(k'.bindings, child, id)
            == Some(Choice(id, class_, class_ == Blocked && WasEnhanced(k, child, id)))
    decreases |childIds|
  {
    var init, last := childIds[..|childIds| - 1], childIds[|childIds| - 1];
    assert child in childIds <==> child in init || child == last;
    var mid := ClassifyFor(k, init, id, class_).value;
    ClassifyReaches(k, mid, init, id, class_, child, id);
    if child in init {
      EnhancedSurvives(k, mid, init, id, class_, child);
    }
    UpdatedBinding(mid.bindings, last, (x: Binding) => Chosen(x, id, class_), child);
    ChosenIs(BindingOrEmpty(mid.bindings, last), id, class_);
  }

  lemma {:induction false} ChosenIs(b: Binding, id: string, class_: AppClass)
    ensures var was := FindChoice(b.products, id);
            FindChoice(Chosen(b, id, class_).products, id)
            == Some(Choice(id, class_, class_ == Blocked && was.Some? && was.value.enhancedBlocking))
  {
    var last := Chosen(b, id, class_).products[|Others(b.products, id)|];
    FindConcat(Others(b.products, id), [last], (c: Choice) => c.productId == id);
  }

  // ----- confirm

  /** Something verified identifies the software within the scope. */
  predicate Reliable(ev: AppEvidence, scope: Scope) {
    || DistributionKey in ev.verifiedFields || PackageId in ev.verifiedFields
    || (scope == FileScope && BinaryHash in ev.verifiedFields)
    || (scope == SeriesScope && FileSeriesKey in ev.verifiedFields)
    || (scope == SeriesScope && SignerKey in ev.verifiedFields && ProductName in ev.values
        && ev.values[ProductName] != "")
  }

  /** The selector asks for one verified field of the report, or for the signer and the name of the product.
      A distribution key comes first; then, for one file, its hash; then a package id; then, for a series, its
      key; and a signer only when there is nothing else. */
  lemma {:induction false} SelectorIs(ev: AppEvidence, scope: Scope)
    ensures SelectorFor(ev, scope).Success? <==> Reliable(ev, scope)
    ensures SelectorFor(ev, scope).Failure? ==> SelectorFor(ev, scope).error == NoReliableIdentity
    ensures SelectorFor(ev, scope).Success? ==>
              var s := SelectorFor(ev, scope).value;
              var cs := s.match_.conditions;
              && s.platform == ev.platform && s.match_.operator == All && cs != []
              && (forall c :: c in cs ==> c.value == ActualValue(c.field, ev))
              && cs[0].field in ev.verifiedFields
              && (cs[0].field == DistributionKey <==> DistributionKey in ev.verifiedFields)
              && (cs[0].field == BinaryHash
                  <==> scope == FileScope && BinaryHash in ev.verifiedFields && DistributionKey !in ev.verifiedFields)
              && (PackageId in ev.verifiedFields ==> cs[0].field in {DistributionKey, BinaryHash, PackageId})
              && (cs[0].field in {FileSeriesKey, SignerKey} ==> scope == SeriesScope)
              && (cs[0].field == SignerKey ==> FileSeriesKey !in ev.verifiedFields)
              && (if cs[0].field == SignerKey then |cs| == 2 && cs[1].field == ProductName else |cs| == 1)
  {
  }

  lemma {:induction false} ConfirmIsAccepted(k: Knowledge, ev: AppEvidence, scope: Scope, existing: Option<string>,
                                             name: string, type_: AppType, class_: AppClass, childIds: seq<string>,
                                             freshId: string)
    ensures var r := Confirmed(k, ev, scope, existing, name, type_, class_, childIds, freshId);
            var adds := existing.Some? && HasProduct(k, existing.value);
            && (r.Success? <==> Reliable(ev, scope) && (adds || !Blank(name))
                                && (childIds == [] || class_ != Unclassified))
            && (r.Failure? ==> r.error == if !Reliable(ev, scope) then NoReliableIdentity
                                          else if !adds && Blank(name) then NameMissing else ClassMissing)
  {
    hide ClassifyFor, Trim, WithProduct, SelectorFor, Reliable, FindProduct, HasProduct, Blank;
    SelectorIs(ev, scope);
    var _, _ := TrimIs(name);
    if existing.Some? {
      FindIs(k, existing.value);
    }
    if Reliable(ev, scope) {
      var selector := SelectorFor(ev, scope).value;
      ClassifyIsAccepted(k.(products := k.products + [Product(freshId, Trim(name), type_, [selector])]), childIds,
                         freshId, class_);
      if existing.Some? {
        ClassifyIsAccepted(k.(products := WithProduct(k.products, existing.value,
                                                      (p: Product) => AddSelector(p, selector))),
                           childIds, existing.value, class_);
      }
    }
  }

  /** A new product has the trimmed name, the type and the one selector; an existing one keeps its name and type
      and gains the selector at the end unless it has it. Nothing else of the catalogue but choices changes. */
  lemma {:induction false} ConfirmMakes(k: Knowledge, k': Knowledge, ev: AppEvidence, scope: Scope,
                                        existing: Option<string>, name: string, type_: AppType, class_: AppClass,
                                        childIds: seq<string>, freshId: string)
    requires Confirmed(k, ev, scope, existing, name, type_, class_, childIds, freshId) == Success(k')
    ensures SelectorFor(ev, scope).Success? && k'.rules == k.rules && k'.schemaVersion == k.schemaVersion
    ensures var s := SelectorFor(ev, scope).value;
            if existing.Some? && HasProduct(k, existing.value) then
              k'.products == WithProduct(k.products, existing.value, (p: Product) =>
                if s in p.selectors then p else Product(p.id, p.name, p.type_, p.selectors + [s]))
            else k'.products == k.products + [Product(freshId, Trim(name), type_, [s])]
  {
    hide ClassifyFor, Trim, WithProduct, SelectorFor, FindProduct, HasProduct;
    if existing.Some? {
      FindIs(k, existing.value);
    }
    var s := SelectorFor(ev, scope).value;
    if existing.Some? && HasProduct(k, existing.value) {
      var add := (p: Product) => AddSelector(p, s);
      WithSame(k.products, existing.value, add,
               (p: Product) => if s in p.selectors then p else Product(p.id, p.name, p.type_, p.selectors + [s]));
      ClassifyReaches(k.(products := WithProduct(k.products, existing.value, add)), k', childIds, existing.value,
                      class_, "", "");
    } else {
      ClassifyReaches(k.(products := k.products + [Product(freshId, Trim(name), type_, [s])]), k', childIds, freshId,
                      class_,
                      "", "");
    }
  }

  lemma {:induction false} WithSame(products: seq<Product>, id: string, f: Product -> Product, g: Product -> Product)
    requires forall p :: f(p) == g(p)
    ensures WithProduct(products, id, f) == WithProduct(products, id, g)
  {
    if products != [] {
      WithSame(products[1..], id, f, g);
    }
  }

  // ----- merge

  /** Classes of the child that do not go together. */
  predicate Clash(k: Knowledge, child: string, a: string, b: string) {
    && HasChoice(k, child, a) && HasChoice(k, child, b)
    && ChoiceFor(k.bindings, child, a).value.classification != ChoiceFor(k.bindings, child, b).value.classification
  }

  predicate OtherChose(k: Knowledge, child: string, id: string) {
    exists b, c :: b in k.bindings && b.childId != child && c in b.products && c.productId == id
  }

  lemma {:induction false} ChosenByOthersIs(k: Knowledge, child: string, id: string)
    ensures ChosenByOthers(k.bindings, child, id) <==> OtherChose(k, child, id)
  {
  }

  lemma {:induction false} MergeIsAccepted(k: Knowledge, sourceId: string, targetId: string, child: string)
    ensures var r := Merged(k, sourceId, targetId, child);
            && (r.Success? <==> sourceId != targetId && HasProduct(k, sourceId) && HasProduct(k, targetId)
                                && !OtherChose(k, child, sourceId) && !Clash(k, child, sourceId, targetId))
            && (r.Failure? ==> r.error == if sourceId == targetId then SameProduct
                                          else if !HasProduct(k, sourceId)
                                              || !HasProduct(k, targetId) then ProductChanged
                                          else if OtherChose(k, child,
                                                  sourceId) then ChosenElsewhere else ClassesConflict)
  {
    hide FindProduct, HasProduct, ChoiceFor, ChosenByOthers, OtherChose, MergedList, WithBinding, Map;
    FindIs(k, sourceId);
    FindIs(k, targetId);
    ChosenByOthersIs(k, child, sourceId);
  }

  /** A merge changes in the rules only that those about the source are about the target, and the target keeps
      its name, its type and its own selectors before those it takes over. */
  lemma {:induction false} MergeMakes(k: Knowledge, k': Knowledge, sourceId: string, targetId: string, child: string)
    requires AcceptedMerge(k, k', sourceId, targetId, child)
    ensures k'.schemaVersion == k.schemaVersion && |k'.rules| == |k.rules|
    ensures forall i :: 0 <= i < |k.rules| ==>
              k'.rules[i] == if k.rules[i].productId
                  == Some(sourceId) then k.rules[i].(productId := Some(targetId)) else k.rules[i]
    ensures FindProduct(k.products, targetId).Some? && FindProduct(k'.products, targetId).Some?
    ensures var was, now := FindProduct(k.products, targetId).value, FindProduct(k'.products, targetId).value;
            && now.name == was.name && now.type_ == was.type_ && was.selectors <= now.selectors
            && FindProduct(k'.products, sourceId).None?
  {
    var source, target := MergeParts(k, k', sourceId, targetId, child);
    hide AcceptedMerge, Distinct, MergedList, AddMissing, FindProduct;
    MergedMembers(k.products, source, target);
    FindProductByKey(k.products, target);
    FindProductByKey(k'.products, target.(selectors := AddMissing(target.selectors, source.selectors)));
    AddMissingExtends(target.selectors, source.selectors);
    FindIs(k', sourceId);
    MergeRules(k, k', sourceId, targetId, child);
  }

  lemma {:induction false} MergeRules(k: Knowledge, k': Knowledge, sourceId: string, targetId: string, child: string)
    requires AcceptedMerge(k, k', sourceId, targetId, child)
    ensures k'.rules == Map(k.rules, (r: Rule) => Retarget(r, sourceId, targetId))
            && k'.schemaVersion == k.schemaVersion
  {
    hide FindProduct, ChoiceFor, ChosenByOthers, MergedList, WithBinding, Map, Distinct, Retarget;
  }

  lemma {:induction false} AddMissingExtends(selectors: seq<Selector>, more: seq<Selector>)
    ensures selectors <= AddMissing(selectors, more)
    decreases |more|
  {
    if more != [] {
      AddMissingExtends(selectors, more[..|more| - 1]);
    }
  }

  // ----- split

  predicate HasSelector(k: Knowledge, id: string, index: int) {
    exists p :: p in k.products && p.id == id && 0 <= index < |p.selectors|
  }

  lemma {:induction false} FoundHas(k: Knowledge, id: string, index: int)
    requires Distinct(ProductIds(k.products))
    ensures HasSelector(k, id, index)
            <==> FindProduct(k.products, id).Some? && 0 <= index < |FindProduct(k.products, id).value.selectors|
    ensures forall p :: p in k.products && p.id == id ==> FindProduct(k.products, id) == Some(p)
  {
    hide Distinct;
    forall p | p in k.products && p.id == id ensures FindProduct(k.products, id) == Some(p) {
      FindProductByKey(k.products, p);
    }
  }

  predicate LastSelector(k: Knowledge, id: string) { exists p :: p in k.products && p.id == id && |p.selectors| == 1 }

  lemma {:induction false} SplitIsAccepted(k: Knowledge, s: Split)
    requires Distinct(ProductIds(k.products))
    ensures var r := SplitVariant(k, s.productId, s.index, s.freshId, s.name, s.childId, s.classification);
            && (r.Success? <==> HasSelector(k, s.productId, s.index) && !Blank(s.name) && !LastSelector(k, s.productId))
            && (r.Failure? ==> r.error == if HasSelector(k, s.productId, s.index) && !Blank(s.name) then LastIdentity
                                          else VariantMissing)
  {
    hide Distinct, FindProduct, HasSelector, Blank, Trim, WithBinding, WithProduct;
    FoundHas(k, s.productId, s.index);
    FindIs(k, s.productId);
    var _, _ := TrimIs(s.name);
    SplitResult(k, s);
  }

  lemma {:induction false} SplitResult(k: Knowledge, s: Split)
    ensures var r := SplitVariant(k, s.productId, s.index, s.freshId, s.name, s.childId, s.classification);
            var found := FindProduct(k.products, s.productId);
            && (r.Success? <==> found.Some? && 0 <= s.index < |found.value.selectors| && Trim(s.name) != ""
                                && |found.value.selectors| != 1)
            && (r.Failure? ==> r.error == if found.Some? && 0 <= s.index < |found.value.selectors| && Trim(s.name) != ""
                                          then LastIdentity else VariantMissing)
  {
    hide Trim, WithBinding, WithProduct, FindProduct;
  }

  /** The new product has the trimmed name, the type of the original and the one selector; the original keeps
      name, type and the other selectors in their order, and the rules stay. */
  lemma {:induction false} SplitMakes(k: Knowledge, k': Knowledge, s: Split)
    requires AcceptedSplit(k, k', s)
    ensures k'.rules == k.rules && k'.schemaVersion == k.schemaVersion
    ensures HasProduct(k, s.productId) && 0 <= s.index < |FindProduct(k.products, s.productId).value.selectors|
    ensures var was := FindProduct(k.products, s.productId).value;
            && FindProduct(k'.products, s.freshId)
                == Some(Product(s.freshId, Trim(s.name), was.type_, [was.selectors[s.index]]))
            && FindProduct(k'.products, s.productId)
               == Some(was.(selectors := was.selectors[..s.index] + was.selectors[s.index + 1..]))
  {
    FindIs(k, s.productId);
    SplitResult(k, s);
    var was := FindProduct(k.products, s.productId).value;
    var added := Product(s.freshId, Trim(s.name), was.type_, [was.selectors[s.index]]);
    assert k'.products == SplitList(k.products, was, s.index, added) by {
      hide Trim, WithBinding, WithProduct, Distinct;
    }
    assert k'.rules == k.rules && k'.schemaVersion == k.schemaVersion;
    hide Distinct, SplitVariant, SplitList, FindProduct, Trim, IdSet;
    SplitMembers(k.products, was, s.index, added);
    FindProductByKey(k'.products, added);
    FindProductByKey(k'.products, WithoutSelector(was, s.index));
  }

  // ----- unlink, revise and toggle

  predicate UsedByRule(k: Knowledge, id: string) { exists r :: r in k.rules && r.productId == Some(id) }

  predicate ChosenBeyond(k: Knowledge, childIds: seq<string>, id: string) {
    exists b, c :: b in k.bindings && b.childId !in childIds && c in b.products && c.productId == id
  }

  lemma {:induction false} UnlinkIsAccepted(k: Knowledge, id: string, index: int, childIds: seq<string>)
    requires Distinct(ProductIds(k.products))
    ensures var r := Unlinked(k, id, index, childIds);
            var last := LastSelector(k, id);
            && (r.Success? <==> HasSelector(k, id, index)
                                && (last ==> !UsedByRule(k, id) && !ChosenBeyond(k, childIds, id)))
            && (r.Failure? ==> r.error == if !HasSelector(k, id, index) then VariantMissing
                                          else if UsedByRule(k, id) then StillReferenced else ChosenElsewhere)
  {
    hide Distinct, FindProduct, HasSelector, WithProduct, Map, Filter, ChosenBeyond;
    FoundHas(k, id, index);
    FindIs(k, id);
    ChosenBeyondIs(k, childIds, id);
    FoundIn(k, id);
  }

  lemma {:induction false} FoundIn(k: Knowledge, id: string)
    ensures FindProduct(k.products, id).Some? ==> FindProduct(k.products, id).value in k.products
  {
  }

  lemma {:induction false} ChosenBeyondIs(k: Knowledge, childIds: seq<string>, id: string)
    ensures ChosenOutside(k.bindings, childIds, id) <==> ChosenBeyond(k, childIds, id)
  {
  }

  /** A revision adds the rule at the end and keeps everything but the approvals of the chosen children. */
  lemma {:induction false} ReviseMakes(k: Knowledge, rule: Rule, childIds: seq<string>, oldId: Option<string>)
    ensures var k' := Revised(k, rule, childIds, oldId);
            k'.rules == k.rules + [rule] && k'.products == k.products && k'.schemaVersion == k.schemaVersion
  {
  }

  lemma {:induction false} ToggleIsAccepted(k: Knowledge, ruleId: string, child: string, freshId: string)
    ensures ToggleApproval(k, ruleId, child, freshId).Success? <==> exists r :: r in k.rules && r.id == ruleId
    ensures ToggleApproval(k, ruleId, child, freshId).Failure?
            ==> ToggleApproval(k, ruleId, child, freshId).error == RuleChanged
  {
  }
}
