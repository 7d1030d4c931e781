/** Importing parts of another schema-4 catalogue: the differences that are offered for approval, and
    what applying an approved selection does. */
module CatalogImport {
  import opened Wrappers
  import opened Sequences
  import opened Catalog
  import opened Editing
  import opened EditingFacts

  datatype Kind = Products | OwnershipRules | Rules

  /** An entry of any kind; `body` stands for its remaining properties, which are only compared. */
  datatype Item = Item(id: string, name: string, body: string)

  datatype CatalogV4 = CatalogV4(
    schemaVersion: nat,
    products: seq<Item>,
    ownershipRules: seq<Item>,
    rules: seq<Item>,
    bindings: seq<Binding>)
  {
    function Of(kind: Kind): seq<Item> {
      match kind
      case Products => products
      case OwnershipRules => ownershipRules
      case Rules => rules
    }

    function With(kind: Kind, items: seq<Item>): CatalogV4 {
      match kind
      case Products => this.(products := items)
      case OwnershipRules => this.(ownershipRules := items)
      case Rules => this.(rules := items)
    }
  }

  const KINDS: seq<Kind> := [Products, OwnershipRules, Rules]

  datatype Key = Key(kind: Kind, id: string)

  datatype Change = Change(key: Key, name: string, existing: bool)

  datatype ImportError = NotSchema4 | InvalidIds | InvalidSelection | ApprovedByOthers

  // ----- differences

  predicate IdChar(c: char) {
    'A' <= c <= 'Z' || 'a' <= c <= 'z' || '0' <= c <= '9' || c == '.' || c == '_' || c == ':' || c == '-'
  }

  predicate ValidId(id: string) { 1 <= |id| <= 256 && forall c :: c in id ==> IdChar(c) }

  function ItemIds(items: seq<Item>): seq<string> { Map(items, (i: Item) => i.id) }

  ghost predicate ValidIds(items: seq<Item>) {
    (forall i :: i in items ==> ValidId(i.id)) && Distinct(ItemIds(items))
  }

  ghost predicate Importable(current: CatalogV4, incoming: CatalogV4) {
    && current.schemaVersion == 4 && incoming.schemaVersion == 4
    && forall kind :: kind in KINDS ==> |incoming.Of(kind)| <= 1000 && ValidIds(incoming.Of(kind))
  }

  function FindItem(items: seq<Item>, id: string): Option<Item> {
    Find(items, (i: Item) => i.id == id)
  }

  function ChangeFor(current: seq<Item>, kind: Kind, item: Item): Change {
    Change(Key(kind, item.id), if item.name == "" then item.id else item.name, FindItem(current, item.id).Some?)
  }

  function DiffItems(current: seq<Item>, incoming: seq<Item>, kind: Kind): seq<Change> {
    if incoming == [] then []
    else
      var item := incoming[|incoming| - 1];
      DiffItems(current, incoming[..|incoming| - 1], kind)
      + if FindItem(current, item.id) == Some(item) then [] else [ChangeFor(current, kind, item)]
  }

  function DiffKinds(current: CatalogV4, incoming: CatalogV4, n: nat): seq<Change>
    requires n <= |KINDS|
  {
    if n == 0 then []
    else DiffKinds(current, incoming, n - 1) + DiffItems(current.Of(KINDS[n - 1]), incoming.Of(KINDS[n - 1]),
                                                         KINDS[n - 1])
  }

  function Diff(current: CatalogV4, incoming: CatalogV4): seq<Change> { DiffKinds(current, incoming, |KINDS|) }

  lemma {:induction false} ValidIdsSnoc(items: seq<Item>, item: Item)
    ensures ValidIds(items + [item]) <==> ValidIds(items) && ValidId(item.id) && item.id !in ItemIds(items)
    ensures forall id :: id in ItemIds(items + [item]) <==> id in ItemIds(items) || id == item.id
  {
    hide ValidId, Map;
    MapConcat(items, [item], (i: Item) => i.id);
    var ids, all := ItemIds(items), ItemIds(items + [item]);
    assert all == ids + [item.id];
    DistinctSnoc(ids, item.id);
    hide Distinct;
    assert item in items + [item];
  }

  lemma {:induction false} ValidIdsPrefix(items: seq<Item>, n: nat)
    requires n <= |items| && ValidIds(items)
    ensures ValidIds(items[..n])
  {
    hide ValidId;
    assert forall i :: 0 <= i < n ==> ItemIds(items[..n])[i] == ItemIds(items)[i];
  }

  method DiffKind(current: seq<Item>, incoming: seq<Item>, kind: Kind, before: seq<Change>)
    returns (r: Result<seq<Change>, ImportError>)
    ensures r.Success? <==> ValidIds(incoming)
    ensures r.Success? ==> r.value == before + DiffItems(current, incoming, kind)
    ensures r.Failure? ==> r.error == InvalidIds
  {
    hide FindItem, ValidId, ValidIds, ItemIds;
    var changes := before;
    var seen: set<string> := {};
    EmptyIds();
    for i := 0 to |incoming|
      invariant changes == before + DiffItems(current, incoming[..i], kind)
      invariant ValidIds(incoming[..i])
      invariant forall id :: id in seen <==> id in ItemIds(incoming[..i])
    {
      var item := incoming[i];
      assert incoming[..i + 1] == incoming[..i] + [item];
      ValidIdsSnoc(incoming[..i], item);
      if !ValidId(item.id) || item.id in seen {
        if ValidIds(incoming) {
          ValidIdsPrefix(incoming, i + 1);
        }
        return Failure(InvalidIds);
      }
      seen := seen + {item.id};
      assert incoming[..i + 1][..i] == incoming[..i];
      if FindItem(current, item.id) != Some(item) {
        changes := changes + [ChangeFor(current, kind, item)];
      }
    }
    assert incoming[..|incoming|] == incoming;
    return Success(changes);
  }

  lemma {:induction false} EmptyIds()
    ensures ItemIds([]) == [] && ValidIds([])
  {
  }

  method CatalogImportDiff(current: CatalogV4, incoming: CatalogV4) returns (r: Result<seq<Change>, ImportError>)
    ensures r.Success? <==> Importable(current, incoming)
    ensures r.Success? ==> r.value == Diff(current, incoming)
  {
    hide DiffItems, ValidIds;
    if current.schemaVersion != 4 || incoming.schemaVersion != 4
       || exists kind :: kind in KINDS && |incoming.Of(kind)| > 1000 {
      return Failure(NotSchema4);
    }
    var changes: seq<Change> := [];
    for n := 0 to |KINDS|
      invariant changes == DiffKinds(current, incoming, n)
      invariant forall m :: 0 <= m < n ==> ValidIds(incoming.Of(KINDS[m]))
    {
      var kind := KINDS[n];
      var step := DiffKind(current.Of(kind), incoming.Of(kind), kind, changes);
      if step.Failure? {
        return step;
      }
      changes := step.value;
    }
    return Success(changes);
  }

  /** An item of the list has the id. */
  predicate HasItem(items: seq<Item>, id: string) { exists i :: i in items && i.id == id }

  /** The change offers the item, under its name or, without one, its id. */
  ghost predicate Differs(current: CatalogV4, incoming: CatalogV4, kind: Kind, item: Item, c: Change) {
    && item in incoming.Of(kind) && item !in current.Of(kind)
    && c.key == Key(kind, item.id) && c.name == (if item.name != "" then item.name else item.id)
    && (c.existing <==> HasItem(current.Of(kind), item.id))
  }

  lemma {:induction false} DiffItemsAre(current: seq<Item>, incoming: seq<Item>, kind: Kind, c: Change)
    requires Distinct(ItemIds(current))
    ensures c in DiffItems(current, incoming, kind)
            <==> exists item :: item in incoming && item !in current && c == ChangeFor(current, kind, item)
    decreases |incoming|
  {
    hide Distinct, ChangeFor;
    if incoming != [] {
      var init, item := incoming[..|incoming| - 1], incoming[|incoming| - 1];
      DiffItemsAre(current, init, kind, c);
      assert incoming == init + [item];
      if item in current {
        FindIncoming(current, item);
      }
      FoundIsThere(current, item.id);
    }
  }

  lemma {:induction false} FoundIsThere(items: seq<Item>, id: string)
    ensures FindItem(items, id).Some? ==> FindItem(items, id).value in items && FindItem(items, id).value.id == id
    ensures FindItem(items, id).Some? <==> HasItem(items, id)
  {
  }

  /** The differences offered are exactly the incoming items that the catalogue does not hold as they are, told
      apart by whether it has the id. */
  lemma {:induction false} DifferencesAre(current: CatalogV4, incoming: CatalogV4, c: Change)
    requires forall kind :: kind in KINDS ==> Distinct(ItemIds(current.Of(kind)))
    ensures c in Diff(current, incoming) <==> exists kind, item :: Differs(current, incoming, kind, item, c)
  {
    hide Distinct, DiffItems, HasItem;
    forall kind: Kind ensures kind in KINDS {
      KindsAreAll(kind);
    }
    DiffIsThree(current, incoming);
    forall kind: Kind
      ensures c in DiffItems(current.Of(kind), incoming.Of(kind), kind)
              <==> exists item :: Differs(current, incoming, kind, item, c)
    {
      DiffItemsAre(current.Of(kind), incoming.Of(kind), kind, c);
      forall item ensures Differs(current, incoming, kind, item, c)
                          <==> item in incoming.Of(kind) && item !in current.Of(kind)
                               && c == ChangeFor(current.Of(kind), kind, item) {
        FoundIsThere(current.Of(kind), item.id);
      }
    }
    hide Differs;
    forall kind: Kind, item | Differs(current, incoming, kind, item, c) ensures c in Diff(current, incoming) {
      match kind
      case Products =>
      case OwnershipRules =>
      case Rules =>
    }
  }

  lemma {:induction false} KindsAreAll(kind: Kind)
    ensures kind in KINDS
  {
    assert KINDS[0] == Products && KINDS[1] == OwnershipRules && KINDS[2] == Rules;
  }

  lemma {:induction false} DiffIsThree(current: CatalogV4, incoming: CatalogV4)
    ensures Diff(current, incoming)
            == DiffItems(current.Of(Products), incoming.Of(Products), Products)
               + DiffItems(current.Of(OwnershipRules), incoming.Of(OwnershipRules), OwnershipRules)
               + DiffItems(current.Of(Rules), incoming.Of(Rules), Rules)
  {
    hide DiffItems;
    assert DiffKinds(current, incoming, 1) == DiffItems(current.Of(Products), incoming.Of(Products), Products);
    assert DiffKinds(current, incoming, 2)
           == DiffKinds(current, incoming, 1)
              + DiffItems(current.Of(OwnershipRules), incoming.Of(OwnershipRules), OwnershipRules);
  }

  // ----- applying a selection

  function Replace(items: seq<Item>, item: Item): seq<Item> {
    Filter(items, (i: Item) => i.id != item.id) + [item]
  }

  function ApplyItems(current: seq<Item>, incoming: seq<Item>, kind: Kind, selected: set<Key>): seq<Item> {
    if incoming == [] then current
    else
      var item := incoming[|incoming| - 1];
      var init := ApplyItems(current, incoming[..|incoming| - 1], kind, selected);
      if Key(kind, item.id) in selected then Replace(init, item) else init
  }

  function SelectedRules(incoming: CatalogV4, selected: set<Key>): seq<string> {
    ItemIds(Filter(incoming.rules, (r: Item) => Key(Rules, r.id) in selected))
  }

  function Approving(b: Binding, ids: seq<string>): Binding {
    if ids == [] then b
    else
      var init := Approving(b, ids[..|ids| - 1]);
      var id := ids[|ids| - 1];
      if id in init.ruleIds then init else init.(ruleIds := init.ruleIds + [id])
  }

  function Applied(current: CatalogV4, incoming: CatalogV4, selected: set<Key>, childId: string): CatalogV4 {
    var ids := SelectedRules(incoming, selected);
    CatalogV4(
      current.schemaVersion,
      ApplyItems(current.products, incoming.products, Products, selected),
      ApplyItems(current.ownershipRules, incoming.ownershipRules, OwnershipRules, selected),
      ApplyItems(current.rules, incoming.rules, Rules, selected),
      if ids == [] then current.bindings
      else WithBinding(current.bindings, childId, (b: Binding) => Approving(b, ids)))
  }

  ghost predicate Chosen(current: CatalogV4, incoming: CatalogV4, selected: set<Key>, childId: string) {
    childId != "" && selected != {} && forall key :: key in selected
                                           ==> exists c :: c in Diff(current, incoming) && c.key == key
  }

  /** A rule that another child approved would change under it. */
  predicate OverwritesOthers(current: CatalogV4, incoming: CatalogV4, selected: set<Key>, childId: string) {
    exists r, was, b :: r in incoming.rules && was in current.rules && b in current.bindings
                        && Key(Rules, r.id) in selected && was.id == r.id && was != r
                        && b.childId != childId && r.id in b.ruleIds
  }

  ghost predicate Accepted(current: CatalogV4, incoming: CatalogV4, selected: set<Key>, childId: string) {
    Importable(current, incoming) && Chosen(current, incoming, selected, childId)
    && !OverwritesOthers(current, incoming, selected, childId)
  }

  method ApplyKind(current: seq<Item>, incoming: seq<Item>, kind: Kind, selected: set<Key>) returns (next: seq<Item>)
    ensures next == ApplyItems(current, incoming, kind, selected)
  {
    next := current;
    for i := 0 to |incoming|
      invariant next == ApplyItems(current, incoming[..i], kind, selected)
    {
      assert incoming[..i + 1][..i] == incoming[..i];
      if Key(kind, incoming[i].id) in selected {
        next := Replace(next, incoming[i]);
      }
    }
    assert incoming[..|incoming|] == incoming;
  }

  method ApplyCatalogImport(current: CatalogV4, incoming: CatalogV4, selected: set<Key>, childId: string)
    returns (r: Result<CatalogV4, ImportError>)
    ensures r.Success? <==> Accepted(current, incoming, selected, childId)
    ensures r.Success? ==> r.value == Applied(current, incoming, selected, childId)
  {
    var preview := CatalogImportDiff(current, incoming);
    if preview.Failure? {
      return Failure(preview.error);
    }
    if childId == "" || selected == {}
       || exists key :: key in selected && !exists c :: c in preview.value && c.key == key {
      return Failure(InvalidSelection);
    }
    if OverwritesOthers(current, incoming, selected, childId) {
      return Failure(ApprovedByOthers);
    }
    var products := ApplyKind(current.products, incoming.products, Products, selected);
    var ownershipRules := ApplyKind(current.ownershipRules, incoming.ownershipRules, OwnershipRules, selected);
    var rules := ApplyKind(current.rules, incoming.rules, Rules, selected);
    var ids := SelectedRules(incoming, selected);
    var bindings := current.bindings;
    if ids != [] {
      bindings := WithBinding(bindings, childId, (b: Binding) => Approving(b, ids));
    }
    return Success(CatalogV4(current.schemaVersion, products, ownershipRules, rules, bindings));
  }

  // ----- the diff after an apply

  lemma {:induction false} FindAfterReplace(items: seq<Item>, item: Item, id: string)
    ensures FindItem(Replace(items, item), id) == if id == item.id then Some(item) else FindItem(items, id)
  {
    var wanted := (i: Item) => i.id == id;
    FindConcat(Filter(items, (i: Item) => i.id != item.id), [item], wanted);
    if id != item.id {
      FindAfterFilter(items, (i: Item) => i.id != item.id, wanted);
    }
  }

  lemma {:induction false} DistinctInit(items: seq<Item>)
    requires items != [] && Distinct(ItemIds(items))
    ensures Distinct(ItemIds(items[..|items| - 1]))
    ensures forall i :: i in items[..|items| - 1] ==> i.id != items[|items| - 1].id
  {
    var init := items[..|items| - 1];
    assert forall i :: 0 <= i < |init| ==> ItemIds(init)[i] == ItemIds(items)[i];
    forall x | x in init ensures x.id != items[|items| - 1].id {
      var i :| 0 <= i < |init| && init[i] == x;
      assert ItemIds(items)[i] == x.id && ItemIds(items)[|items| - 1] == items[|items| - 1].id;
    }
  }

  /** A selected incoming entry is found as it came in; any other id is found as before. */
  lemma {:induction false} FindAfterApply(current: seq<Item>, incoming: seq<Item>, kind: Kind, selected: set<Key>,
                                          id: string)
    requires Distinct(ItemIds(incoming))
    ensures FindItem(ApplyItems(current, incoming, kind, selected), id)
            == if Key(kind, id) in selected && FindItem(incoming, id).Some? then FindItem(incoming, id)
               else FindItem(current, id)
    decreases |incoming|
  {
    if incoming != [] {
      hide Distinct, Replace;
      var init, item := incoming[..|incoming| - 1], incoming[|incoming| - 1];
      DistinctInit(incoming);
      FindAfterApply(current, init, kind, selected, id);
      FindAfterReplace(ApplyItems(current, init, kind, selected), item, id);
      assert incoming == init + [item];
      FindConcat(init, [item], (i: Item) => i.id == id);
    }
  }

  lemma {:induction false} FindIncoming(incoming: seq<Item>, item: Item)
    requires Distinct(ItemIds(incoming)) && item in incoming
    ensures FindItem(incoming, item.id) == Some(item)
    decreases |incoming|
  {
    var init, last := incoming[..|incoming| - 1], incoming[|incoming| - 1];
    DistinctInit(incoming);
    assert incoming == init + [last];
    FindConcat(init, [last], (i: Item) => i.id == item.id);
    if item in init {
      FindIncoming(init, item);
    }
  }

  lemma {:induction false} RediffItems(current: seq<Item>, next: seq<Item>, all: seq<Item>, incoming: seq<Item>,
                                       kind: Kind, selected: set<Key>)
    requires Distinct(ItemIds(all)) && next == ApplyItems(current, all, kind, selected)
    requires forall i :: i in incoming ==> i in all
    ensures DiffItems(next, incoming, kind)
            == Filter(DiffItems(current, incoming, kind), (c: Change) => c.key !in selected)
    decreases |incoming|
  {
    if incoming != [] {
      hide Distinct, ApplyItems, FindItem;
      var init, item := incoming[..|incoming| - 1], incoming[|incoming| - 1];
      RediffItems(current, next, all, init, kind, selected);
      FindAfterApply(current, all, kind, selected, item.id);
      FindIncoming(all, item);
      var keep := (c: Change) => c.key !in selected;
      FilterConcat(DiffItems(current, init, kind), [ChangeFor(current, kind, item)], keep);
      assert DiffItems(current, init, kind) + [] == DiffItems(current, init, kind);
    }
  }

  lemma {:induction false} AppliedOf(current: CatalogV4, incoming: CatalogV4, selected: set<Key>, childId: string,
                                     kind: Kind)
    ensures Applied(current, incoming, selected, childId).Of(kind)
            == ApplyItems(current.Of(kind), incoming.Of(kind), kind, selected)
  {
  }

  lemma {:induction false} RediffKinds(current: CatalogV4, incoming: CatalogV4, selected: set<Key>, childId: string,
                                       n: nat)
    requires Importable(current, incoming) && n <= |KINDS|
    ensures DiffKinds(Applied(current, incoming, selected, childId), incoming, n)
            == Filter(DiffKinds(current, incoming, n), (c: Change) => c.key !in selected)
  {
    if n > 0 {
      hide DiffItems, ApplyItems, Filter, ValidId, Distinct, Applied;
      RediffKinds(current, incoming, selected, childId, n - 1);
      var kind := KINDS[n - 1];
      var next := Applied(current, incoming, selected, childId);
      assert kind in KINDS && ValidIds(incoming.Of(kind));
      AppliedOf(current, incoming, selected, childId, kind);
      RediffItems(current.Of(kind), next.Of(kind), incoming.Of(kind), incoming.Of(kind), kind, selected);
      FilterConcat(DiffKinds(current, incoming, n - 1), DiffItems(current.Of(kind), incoming.Of(kind), kind),
                   (c: Change) => c.key !in selected);
    }
  }

  /** Comparing the same file again after applying a selection shows exactly the differences that were
      not selected. */
  lemma {:induction false} RediffShowsTheRest(current: CatalogV4, incoming: CatalogV4, selected: set<Key>,
                                              childId: string)
    requires Accepted(current, incoming, selected, childId)
    ensures Diff(Applied(current, incoming, selected, childId), incoming)
            == Filter(Diff(current, incoming), (c: Change) => c.key !in selected)
  {
    RediffKinds(current, incoming, selected, childId, |KINDS|);
  }

  /** Applying every difference leaves none. */
  lemma {:induction false} ApplyAllLeavesNothing(current: CatalogV4, incoming: CatalogV4, selected: set<Key>,
                                                 childId: string)
    requires Accepted(current, incoming, selected, childId)
    requires forall c :: c in Diff(current, incoming) ==> c.key in selected
    ensures Diff(Applied(current, incoming, selected, childId), incoming) == []
  {
    RediffShowsTheRest(current, incoming, selected, childId);
    FilterNone(Diff(current, incoming), (c: Change) => c.key !in selected);
  }

  // ----- what an apply leaves alone

  lemma {:induction false} UnselectedItems(current: seq<Item>, incoming: seq<Item>, kind: Kind, selected: set<Key>)
    ensures Filter(ApplyItems(current, incoming, kind, selected), (i: Item) => Key(kind, i.id) !in selected)
            == Filter(current, (i: Item) => Key(kind, i.id) !in selected)
    decreases |incoming|
  {
    if incoming != [] {
      var init, item := incoming[..|incoming| - 1], incoming[|incoming| - 1];
      UnselectedItems(current, init, kind, selected);
      var mid := ApplyItems(current, init, kind, selected);
      var keep := (i: Item) => Key(kind, i.id) !in selected;
      if Key(kind, item.id) in selected {
        FilterConcat(Filter(mid, (i: Item) => i.id != item.id), [item], keep);
        FilterOfFilter(mid, (i: Item) => i.id != item.id, keep);
      }
    }
  }

  /** Entries that were not selected are untouched and keep their order, in every list. */
  lemma {:induction false} UnselectedStay(current: CatalogV4, incoming: CatalogV4, selected: set<Key>, childId: string,
                                          kind: Kind)
    requires Accepted(current, incoming, selected, childId)
    ensures Filter(Applied(current, incoming, selected, childId).Of(kind), (i: Item) => Key(kind, i.id) !in selected)
            == Filter(current.Of(kind), (i: Item) => Key(kind, i.id) !in selected)
  {
    UnselectedItems(current.Of(kind), incoming.Of(kind), kind, selected);
  }

  lemma {:induction false} ApprovingIs(b: Binding, ids: seq<string>)
    ensures Approving(b, ids).childId == b.childId && Approving(b, ids).products == b.products
    ensures forall id :: id in Approving(b, ids).ruleIds <==> id in b.ruleIds || id in ids
    decreases |ids|
  {
    if ids != [] {
      ApprovingIs(b, ids[..|ids| - 1]);
      assert forall id :: id in ids <==> id in ids[..|ids| - 1] || id == ids[|ids| - 1];
    }
  }

  /** The approvals that are there stay first and in order, and none is listed twice. */
  lemma {:induction false} ApprovingAppends(b: Binding, ids: seq<string>)
    ensures b.ruleIds <= Approving(b, ids).ruleIds
    ensures Distinct(b.ruleIds) ==> Distinct(Approving(b, ids).ruleIds)
    decreases |ids|
  {
    if ids != [] {
      ApprovingAppends(b, ids[..|ids| - 1]);
      DistinctSnoc(Approving(b, ids[..|ids| - 1]).ruleIds, ids[|ids| - 1]);
      hide Distinct;
    }
  }

  /** Two catalogues of schema 4 can be compared when the incoming one has at most 1000 entries of each kind,
      under different valid ids. */
  lemma {:induction false} ComparableMeans(current: CatalogV4, incoming: CatalogV4)
    ensures Importable(current, incoming)
            <==> && current.schemaVersion == 4 && incoming.schemaVersion == 4
                 && ComparableList(incoming.products) && ComparableList(incoming.ownershipRules)
                     && ComparableList(incoming.rules)
  {
    hide ValidId;
    forall kind: Kind ensures kind in KINDS {
      KindsAreAll(kind);
    }
    ListIs(incoming.Of(Products));
    ListIs(incoming.Of(OwnershipRules));
    ListIs(incoming.Of(Rules));
    hide ValidIds, ComparableList;
    forall kind: Kind | ComparableList(incoming.products) && ComparableList(incoming.ownershipRules)
        && ComparableList(incoming.rules)
      ensures |incoming.Of(kind)| <= 1000 && ValidIds(incoming.Of(kind))
    {
      match kind
      case Products =>
      case OwnershipRules =>
      case Rules =>
    }
  }

  predicate ComparableList(items: seq<Item>) {
    && |items| < 1001 && (forall i :: 0 <= i < |items| ==> ValidId(items[i].id))
    && (forall i, j :: 0 <= i < j < |items| ==> items[i].id != items[j].id)
  }

  lemma {:induction false} ListIs(items: seq<Item>)
    ensures ComparableList(items) <==> |items| <= 1000 && ValidIds(items)
  {
    hide ValidId;
    assert forall i :: 0 <= i < |items| ==> items[i] in items && ItemIds(items)[i] == items[i].id;
  }

  lemma {:induction false} ImportedBindings(current: CatalogV4, incoming: CatalogV4, selected: set<Key>,
                                            childId: string, child: string)
    ensures var ids := SelectedRules(incoming, selected);
            FindBinding(Applied(current, incoming, selected, childId).bindings, child)
            == if child == childId && ids != [] then Some(Approving(BindingOrEmpty(current.bindings, childId), ids))
               else FindBinding(current.bindings, child)
  {
    hide Approving, WithBinding, ApplyItems, FindBinding, SelectedRules;
    var ids := SelectedRules(incoming, selected);
    forall x: Binding ensures Approving(x, ids).childId == x.childId {
      ApprovingIs(x, ids);
    }
    UpdatedBinding(current.bindings, childId, (x: Binding) => Approving(x, ids), child);
  }

  /** The code of a letter or digit, or of one of `.`, `_`, `:` and `-`. */
  predicate IdCode(n: int) { 48 <= n <= 58 || 65 <= n <= 90 || 97 <= n <= 122 || n == 45 || n == 46 || n == 95 }

  /** An id is 1 to 256 such characters. */
  lemma {:induction false} IdIs(id: string)
    ensures ValidId(id) <==> id != "" && |id| < 257 && forall i :: 0 <= i < |id| ==> IdCode(id[i] as int)
  {
    forall c ensures IdChar(c) <==> IdCode(c as int) {
      IdCharIs(c);
    }
    hide IdChar, IdCode;
    assert forall i :: 0 <= i < |id| ==> id[i] in id;
  }

  lemma {:induction false} IdCharIs(c: char)
    ensures IdChar(c) <==> IdCode(c as int)
  {
  }

  /** Another child has approved the rule and would find it changed. */
  ghost predicate ChangesFor(current: CatalogV4, incoming: CatalogV4, childId: string, was: Item) {
    && was in current.rules
    && (exists b :: b in current.bindings && b.childId != childId && was.id in b.ruleIds)
    && (exists r :: r in incoming.rules && r.id == was.id && r != was)
  }

  /** A selection is applied exactly when the catalogues can be compared, it is not empty and for a child, it
      selects nothing but differences, and it selects no rule that another child would find changed. */
  lemma {:induction false} SelectionIsAccepted(current: CatalogV4, incoming: CatalogV4, selected: set<Key>,
                                               childId: string)
    ensures Accepted(current, incoming, selected, childId)
            <==> && Importable(current, incoming) && childId != "" && selected != {}
                 && (forall key :: key in selected ==> exists c :: c in Diff(current, incoming) && c.key == key)
                 && (forall was :: ChangesFor(current, incoming, childId, was) ==> Key(Rules, was.id) !in selected)
  {
    hide Importable, Diff;
  }

  /** Another child's binding stays as it was, and so does every existing rule that child approved. */
  lemma {:induction false} ImportLeavesOtherChildren(current: CatalogV4, incoming: CatalogV4, selected: set<Key>,
                                                     childId: string, b: Binding, id: string)
    requires Accepted(current, incoming, selected, childId)
    requires b in current.bindings && b.childId != childId
    ensures FindBinding(Applied(current, incoming, selected, childId).bindings, b.childId)
            == FindBinding(current.bindings, b.childId)
    ensures id in b.ruleIds && FindItem(current.rules, id).Some?
            ==> FindItem(Applied(current, incoming, selected, childId).rules, id) == FindItem(current.rules, id)
  {
    hide ApplyItems, FindBinding, SelectedRules, Chosen, WithBinding, Distinct;
    ImportedBindings(current, incoming, selected, childId, b.childId);
    assert Rules in KINDS && ValidIds(incoming.Of(Rules));
    FindAfterApply(current.rules, incoming.rules, Rules, selected, id);
  }

  lemma {:induction false} SelectedRulesAre(incoming: CatalogV4, selected: set<Key>, id: string)
    ensures id in SelectedRules(incoming, selected) <==> Key(Rules, id) in selected && HasItem(incoming.rules, id)
  {
    MapMembers(Filter(incoming.rules, (r: Item) => Key(Rules, r.id) in selected), (i: Item) => i.id);
  }

  /** The importing child approves the selected rules in addition to its own. */
  lemma {:induction false} ImporterApproves(current: CatalogV4, incoming: CatalogV4, selected: set<Key>,
                                            childId: string)
    requires Accepted(current, incoming, selected, childId)
    ensures ApprovedBy(Applied(current, incoming, selected, childId).bindings, childId)
            == ApprovedBy(current.bindings, childId) + set id | id in SelectedRules(incoming, selected)
    ensures forall p :: ChoiceFor(Applied(current, incoming, selected, childId).bindings, childId, p)
                        == ChoiceFor(current.bindings, childId, p)
  {
    hide Approving, FindBinding, FindChoice, Accepted, Applied, SelectedRules;
    ImportedBindings(current, incoming, selected, childId, childId);
    ApprovingIs(BindingOrEmpty(current.bindings, childId), SelectedRules(incoming, selected));
    EmptyBinding(childId);
  }

  lemma {:induction false} EmptyBinding(childId: string)
    ensures forall p :: FindChoice(Binding(childId, [], []).products, p).None?
  {
  }
}
