/** The edits a guardian makes to the catalogue. Each edit works on a copy and either returns the
    edited catalogue or refuses. An edit that the program performs with loops is a method; the
    function it is proved against says what the edited catalogue is. */
module Editing {
  import opened Wrappers
  import opened Sequences
  import opened Text
  import opened Evidence
  import opened Catalog

  datatype EditError =
    | SameProduct | ProductChanged | ChosenElsewhere | ClassesConflict
    | NoReliableIdentity | NameMissing | ClassMissing
    | VariantMissing | LastIdentity | StillReferenced | RuleChanged

  type Edited = Result<Knowledge, EditError>

  // ----- updates in place

  /** The first binding of the child is updated; a child without one gets a new one at the end. */
  function WithBinding(bindings: seq<Binding>, childId: string, update: Binding -> Binding): seq<Binding> {
    if bindings == [] then [update(Binding(childId, [], []))]
    else if bindings[0].childId == childId then [update(bindings[0])] + bindings[1..]
    else [bindings[0]] + WithBinding(bindings[1..], childId, update)
  }

  /** The first product with the id is updated. */
  function WithProduct(products: seq<Product>, id: string, update: Product -> Product): seq<Product> {
    if products == [] then []
    else if products[0].id == id then [update(products[0])] + products[1..]
    else [products[0]] + WithProduct(products[1..], id, update)
  }

  function Others(choices: seq<Choice>, productId: string): seq<Choice> {
    Filter(choices, (c: Choice) => c.productId != productId)
  }

  // ----- classify

  /** The child's choice moves to the end; enhanced blocking survives only while the class stays blocked. */
  function Chosen(b: Binding, productId: string, classification: AppClass): Binding {
    var previous := FindChoice(b.products, productId);
    var enhanced := classification == Blocked && previous.Some? && previous.value.enhancedBlocking;
    b.(products := Others(b.products, productId) + [Choice(productId, classification, enhanced)])
  }

  function SetProductClassification(k: Knowledge, childId: string, productId: string,
                                    classification: AppClass): Edited {
    if classification == Unclassified then Failure(ClassMissing)
    else Success(k.(bindings := WithBinding(k.bindings, childId, (b: Binding) => Chosen(b, productId, classification))))
  }

  function ClassifyFor(k: Knowledge, childIds: seq<string>, productId: string, classification: AppClass): Edited {
    if childIds == [] then Success(k)
    else
      var init := ClassifyFor(k, childIds[..|childIds| - 1], productId, classification);
      if init.Failure? then init
      else SetProductClassification(init.value, childIds[|childIds| - 1], productId, classification)
  }

  // ----- confirm

  datatype Scope = FileScope | SeriesScope

  function ConditionsFor(ev: AppEvidence, scope: Scope): Option<seq<Condition>> {
    if DistributionKey in ev.verifiedFields then Some([ReportedBy(ev, DistributionKey)])
    else if scope == FileScope && BinaryHash in ev.verifiedFields then Some([ReportedBy(ev, BinaryHash)])
    else if PackageId in ev.verifiedFields then Some([ReportedBy(ev, PackageId)])
    else if scope == SeriesScope && FileSeriesKey in ev.verifiedFields then Some([ReportedBy(ev, FileSeriesKey)])
    else if scope == SeriesScope && SignerKey in ev.verifiedFields
            && ProductName in ev.values && ev.values[ProductName] != "" then
      Some([ReportedBy(ev, SignerKey), ReportedBy(ev, ProductName)])
    else None
  }

  /** The value may be missing, even of a verified field. */
  function ReportedBy(ev: AppEvidence, field: Field): Condition { Condition(field, ActualValue(field, ev)) }

  function SelectorFor(ev: AppEvidence, scope: Scope): Result<Selector, EditError> {
    match ConditionsFor(ev, scope)
    case None => Failure(NoReliableIdentity)
    case Some(conditions) => Success(Selector(ev.platform, Expression(All, conditions)))
  }

  function AddSelector(p: Product, s: Selector): Product {
    if s in p.selectors then p else p.(selectors := p.selectors + [s])
  }

  /** `existing` is the product the evidence is added to; without it a product is created under `freshId`. */
  function ConfirmTarget(k: Knowledge, existing: Option<string>, freshId: string): string {
    if existing.Some? && FindProduct(k.products, existing.value).Some? then existing.value else freshId
  }

  function Confirmed(k: Knowledge, ev: AppEvidence, scope: Scope, existing: Option<string>, name: string,
                     type_: AppType, classification: AppClass, childIds: seq<string>, freshId: string): Edited
  {
    match SelectorFor(ev, scope)
    case Failure(e) => Failure(e)
    case Success(selector) =>
      if existing.Some? && FindProduct(k.products, existing.value).Some? then
        ClassifyFor(k.(products := WithProduct(k.products, existing.value, (p: Product) => AddSelector(p, selector))),
                    childIds, existing.value, classification)
      else if Trim(name) == "" then Failure(NameMissing)
      else
        ClassifyFor(k.(products := k.products + [Product(freshId, Trim(name), type_, [selector])]),
                    childIds, freshId, classification)
  }

  method ConfirmProduct(current: Knowledge, ev: AppEvidence, scope: Scope, existing: Option<string>, name: string,
                        type_: AppType, classification: AppClass, childIds: seq<string>, freshId: string)
    returns (r: Edited)
    ensures r == Confirmed(current, ev, scope, existing, name, type_, classification, childIds, freshId)
  {
    var next := current;
    var selector := SelectorFor(ev, scope);
    if selector.Failure? {
      return Failure(selector.error);
    }
    var productId := ConfirmTarget(current, existing, freshId);
    if existing.Some? && FindProduct(next.products, existing.value).Some? {
      next := next.(products := WithProduct(next.products, productId, (p: Product) => AddSelector(p, selector.value)));
    } else {
      if Trim(name) == "" {
        return Failure(NameMissing);
      }
      next := next.(products := next.products + [Product(freshId, Trim(name), type_, [selector.value])]);
    }
    r := ClassifyChildren(next, childIds, productId, classification);
  }

  method ClassifyChildren(base: Knowledge, childIds: seq<string>, productId: string, classification: AppClass)
    returns (r: Edited)
    ensures r == ClassifyFor(base, childIds, productId, classification)
  {
    var next := base;
    for i := 0 to |childIds|
      invariant ClassifyFor(base, childIds[..i], productId, classification) == Success(next)
    {
      assert childIds[..i + 1][..i] == childIds[..i];
      var step := SetProductClassification(next, childIds[i], productId, classification);
      if step.Failure? {
        ClassifyFails(base, childIds, i + 1, productId, classification);
        return step;
      }
      next := step.value;
    }
    assert childIds[..|childIds|] == childIds;
    return Success(next);
  }

  /** A child that cannot be classified stops the whole edit. */
  lemma {:induction false} ClassifyFails(k: Knowledge, childIds: seq<string>, n: nat, productId: string,
                                         classification: AppClass)
    requires n <= |childIds|
    requires ClassifyFor(k, childIds[..n], productId, classification).Failure?
    ensures ClassifyFor(k, childIds, productId, classification)
            == ClassifyFor(k, childIds[..n], productId, classification)
    decreases |childIds|
  {
    if n == |childIds| {
      assert childIds[..n] == childIds;
    } else {
      var init := childIds[..|childIds| - 1];
      assert init[..n] == childIds[..n];
      ClassifyFails(k, init, n, productId, classification);
    }
  }

  // ----- merge

  /** `extra` is appended item by item, skipping what is already there. */
  function AddMissing(selectors: seq<Selector>, extra: seq<Selector>): (r: seq<Selector>)
    ensures forall s :: s in r <==> s in selectors || s in extra
    ensures selectors <= r
  {
    if extra == [] then selectors
    else
      var n := |extra| - 1;
      assert forall s :: s in extra <==> s in extra[..n] || s == extra[n];
      var init := AddMissing(selectors, extra[..n]);
      if extra[n] in init then init else init + [extra[n]]
  }

  function Retarget(r: Rule, sourceId: string, targetId: string): Rule {
    if r.productId == Some(sourceId) then r.(productId := Some(targetId)) else r
  }

  predicate ChosenByOthers(bindings: seq<Binding>, childId: string, productId: string) {
    exists b :: b in bindings && b.childId != childId && FindChoice(b.products, productId).Some?
  }

  /** The child's choice of the source becomes a choice of the target unless there is one already. */
  function MergedChoices(b: Binding, sourceId: string, targetId: string): Binding {
    var left, right := FindChoice(b.products, sourceId), FindChoice(b.products, targetId);
    b.(products := Others(b.products, sourceId)
                   + if left.Some? && right.None? then [left.value.(productId := targetId)] else [])
  }

  /** The target takes over the source's selectors, and the source is gone. */
  function MergedList(products: seq<Product>, source: Product, target: Product): seq<Product> {
    var selectors := AddMissing(target.selectors, source.selectors);
    Filter(WithProduct(products, target.id, (p: Product) => p.(selectors := selectors)),
           (p: Product) => p.id != source.id)
  }

  function Merged(k: Knowledge, sourceId: string, targetId: string, childId: string): Edited {
    var source, target := FindProduct(k.products, sourceId), FindProduct(k.products, targetId);
    var left, right := ChoiceFor(k.bindings, childId, sourceId), ChoiceFor(k.bindings, childId, targetId);
    if sourceId == targetId then Failure(SameProduct)
    else if source.None? || target.None? then Failure(ProductChanged)
    else if ChosenByOthers(k.bindings, childId, sourceId) then Failure(ChosenElsewhere)
    else if left.Some? && right.Some? && left.value.classification != right.value.classification then
      Failure(ClassesConflict)
    else
      Success(k.(
        products := MergedList(k.products, source.value, target.value),
        rules := Map(k.rules, (r: Rule) => Retarget(r, sourceId, targetId)),
        bindings := if FindBinding(k.bindings, childId).None? then k.bindings
                    else WithBinding(k.bindings, childId, (b: Binding) => MergedChoices(b, sourceId, targetId))))
  }

  method MergeProducts(current: Knowledge, sourceId: string, targetId: string, childId: string) returns (r: Edited)
    ensures r == Merged(current, sourceId, targetId, childId)
  {
    if sourceId == targetId {
      return Failure(SameProduct);
    }
    var next := current;
    var source, target := FindProduct(next.products, sourceId), FindProduct(next.products, targetId);
    if source.None? || target.None? {
      return Failure(ProductChanged);
    }
    if ChosenByOthers(next.bindings, childId, sourceId) {
      return Failure(ChosenElsewhere);
    }
    var left, right := ChoiceFor(next.bindings, childId, sourceId), ChoiceFor(next.bindings, childId, targetId);
    if left.Some? && right.Some? && left.value.classification != right.value.classification {
      return Failure(ClassesConflict);
    }
    var selectors := target.value.selectors;
    var extra := source.value.selectors;
    for i := 0 to |extra|
      invariant selectors == AddMissing(target.value.selectors, extra[..i])
    {
      assert extra[..i + 1][..i] == extra[..i];
      if extra[i] !in selectors {
        selectors := selectors + [extra[i]];
      }
    }
    assert extra[..|extra|] == extra;
    next := next.(products := WithProduct(next.products, targetId, (p: Product) => p.(selectors := selectors)));
    if FindBinding(next.bindings, childId).Some? {
      next := next.(bindings := WithBinding(next.bindings, childId,
                                            (b: Binding) => MergedChoices(b, sourceId, targetId)));
    }
    var rules := next.rules;
    for i := 0 to |rules|
      invariant |rules| == |current.rules|
      invariant forall j :: 0 <= j < i ==> rules[j] == Retarget(current.rules[j], sourceId, targetId)
      invariant forall j :: i <= j < |rules| ==> rules[j] == current.rules[j]
    {
      if rules[i].productId == Some(sourceId) {
        rules := rules[i := rules[i].(productId := Some(targetId))];
      }
    }
    assert rules == Map(current.rules, (x: Rule) => Retarget(x, sourceId, targetId));
    next := next.(rules := rules);
    next := next.(products := Filter(next.products, (p: Product) => p.id != sourceId));
    return Success(next);
  }

  // ----- split and unlink

  function WithoutSelector(p: Product, index: nat): Product
    requires index < |p.selectors|
  {
    p.(selectors := p.selectors[..index] + p.selectors[index + 1..])
  }

  function SplitVariant(k: Knowledge, productId: string, index: int, freshId: string, name: string,
                        childId: string, classification: AppClass): Edited {
    var found := FindProduct(k.products, productId);
    if found.None? || !(0 <= index < |found.value.selectors|) || Trim(name) == "" then Failure(VariantMissing)
    else if |found.value.selectors| == 1 then Failure(LastIdentity)
    else
      var p := found.value;
      Success(k.(
        products := WithProduct(k.products, productId,
                                (x: Product) => x.(selectors := WithoutSelector(p, index).selectors))
                    + [Product(freshId, Trim(name), p.type_, [p.selectors[index]])],
        bindings := WithBinding(k.bindings, childId, (b: Binding) =>
          b.(products := b.products + [Choice(freshId, classification, false)]))))
  }

  predicate Referenced(rules: seq<Rule>, productId: string) {
    exists r :: r in rules && r.productId == Some(productId)
  }

  predicate ChosenOutside(bindings: seq<Binding>, childIds: seq<string>, productId: string) {
    exists b :: b in bindings && b.childId !in childIds && FindChoice(b.products, productId).Some?
  }

  function Unchosen(b: Binding, childIds: seq<string>, productId: string): Binding {
    if b.childId in childIds then b.(products := Others(b.products, productId)) else b
  }

  function Unlinked(k: Knowledge, productId: string, index: int, childIds: seq<string>): Edited {
    var found := FindProduct(k.products, productId);
    if found.None? || !(0 <= index < |found.value.selectors|) then Failure(VariantMissing)
    else if |found.value.selectors| > 1 then
      var p := found.value;
      Success(k.(products := WithProduct(k.products, productId, (x: Product) =>
        x.(selectors := WithoutSelector(p, index).selectors))))
    else if Referenced(k.rules, productId) then Failure(StillReferenced)
    else if ChosenOutside(k.bindings, childIds, productId) then Failure(ChosenElsewhere)
    else
      Success(k.(
        bindings := Map(k.bindings, (b: Binding) => Unchosen(b, childIds, productId)),
        products := Filter(k.products, (p: Product) => p.id != productId)))
  }

  method UnlinkVariant(current: Knowledge, productId: string, index: int, childIds: seq<string>) returns (r: Edited)
    ensures r == Unlinked(current, productId, index, childIds)
  {
    var next := current;
    var found := FindProduct(next.products, productId);
    if found.None? || !(0 <= index < |found.value.selectors|) {
      return Failure(VariantMissing);
    }
    if |found.value.selectors| > 1 {
      var p := found.value;
      return Success(next.(products := WithProduct(next.products, productId, (x: Product) =>
        x.(selectors := WithoutSelector(p, index).selectors))));
    }
    if Referenced(next.rules, productId) {
      return Failure(StillReferenced);
    }
    if ChosenOutside(next.bindings, childIds, productId) {
      return Failure(ChosenElsewhere);
    }
    var bindings := next.bindings;
    for i := 0 to |bindings|
      invariant |bindings| == |current.bindings|
      invariant forall j :: 0 <= j < i ==> bindings[j] == Unchosen(current.bindings[j], childIds, productId)
      invariant forall j :: i <= j < |bindings| ==> bindings[j] == current.bindings[j]
    {
      if bindings[i].childId in childIds {
        bindings := bindings[i := bindings[i].(products := Others(bindings[i].products, productId))];
      }
    }
    assert bindings == Map(current.bindings, (b: Binding) => Unchosen(b, childIds, productId));
    next := next.(bindings := bindings);
    next := next.(products := Filter(next.products, (p: Product) => p.id != productId));
    return Success(next);
  }

  // ----- rules

  function Without(ids: seq<string>, id: string): seq<string> { Filter(ids, (x: string) => x != id) }

  function WithoutOld(ids: seq<string>, oldId: Option<string>): seq<string> {
    if oldId.Some? then Without(ids, oldId.value) else ids
  }

  /** The child approves the new rule in place of the old one. */
  function Reapproved(b: Binding, oldId: Option<string>, newId: string): Binding {
    var kept := WithoutOld(b.ruleIds, oldId);
    b.(ruleIds := if newId in kept then kept else kept + [newId])
  }

  function ReapproveFor(bindings: seq<Binding>, childIds: seq<string>, oldId: Option<string>,
                        newId: string): seq<Binding> {
    if childIds == [] then bindings
    else
      WithBinding(ReapproveFor(bindings, childIds[..|childIds| - 1], oldId, newId), childIds[|childIds| - 1],
                  (b: Binding) => Reapproved(b, oldId, newId))
  }

  function Revised(k: Knowledge, rule: Rule, childIds: seq<string>, oldId: Option<string>): Knowledge {
    k.(rules := k.rules + [rule], bindings := ReapproveFor(k.bindings, childIds, oldId, rule.id))
  }

  method ReviseRule(current: Knowledge, rule: Rule, childIds: seq<string>, oldId: Option<string>)
      returns (next: Knowledge)
    ensures next == Revised(current, rule, childIds, oldId)
  {
    next := current.(rules := current.rules + [rule]);
    for i := 0 to |childIds|
      invariant next == current.(rules := current.rules + [rule],
                                 bindings := ReapproveFor(current.bindings, childIds[..i], oldId, rule.id))
    {
      assert childIds[..i + 1][..i] == childIds[..i];
      next := next.(bindings := WithBinding(next.bindings, childIds[i], (b: Binding) => Reapproved(b, oldId, rule.id)));
    }
    assert childIds[..|childIds|] == childIds;
  }

  function Toggled(b: Binding, rule: Rule, freshId: string): Binding {
    if rule.enabled && rule.id in b.ruleIds then b.(ruleIds := Without(b.ruleIds, rule.id))
    else if rule.enabled then b.(ruleIds := b.ruleIds + [rule.id])
    else b.(ruleIds := Without(b.ruleIds, rule.id) + [freshId])
  }

  /** A disabled rule is not switched on for the family: the child gets an enabled copy. */
  function ToggleApproval(k: Knowledge, ruleId: string, childId: string, freshId: string): Edited {
    match FindRule(k.rules, ruleId)
    case None => Failure(RuleChanged)
    case Some(rule) =>
      Success(k.(
        rules := if rule.enabled then k.rules else k.rules + [rule.(id := freshId, enabled := true)],
        bindings := WithBinding(k.bindings, childId, (b: Binding) => Toggled(b, rule, freshId))))
  }
}
