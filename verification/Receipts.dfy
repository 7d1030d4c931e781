/** Parsing of what the server sends back: receipts and mappings are accepted only as an exact answer
    to what was sent. A value that does not have the expected JSON shape is `Malformed`. */
module Receipts {
  import opened Wrappers
  import opened Sequences
  import opened LegacyConversion

  const MAX_SAFE_INTEGER := 9007199254740991

  predicate Token(s: string) {
    1 <= |s| <= 256 && forall c :: c in s ==> c as int > 0x1F && c as int != 0x7F
  }

  predicate Revision(n: int) { 1 <= n <= MAX_SAFE_INTEGER }

  // ----- registration receipts

  datatype Registered = Registered(instanceId: string, revision: int, hash: string)

  datatype RawItem = MalformedItem | RawItem(item: Registered)

  datatype RawReceipt = MalformedReceipt | RawReceipt(schemaVersion: int, childId: string, items: seq<RawItem>)

  predicate ValidRegistered(r: Registered) { IsHash(r.instanceId) && IsHash(r.hash) && Revision(r.revision) }

  function InstanceIds(items: seq<Registered>): seq<string> { Map(items, (r: Registered) => r.instanceId) }

  /** What can be waited for: at most 100 valid registrations of different instances. */
  ghost predicate ValidSent(childId: string, sent: seq<Registered>) {
    Token(childId) && |sent| <= 100 && Distinct(InstanceIds(sent)) && forall r :: r in sent ==> ValidRegistered(r)
  }

  /** The registration is confirmed with the same evidence or a later revision of it. */
  predicate Confirms(r: Registered, sent: Registered) {
    r.instanceId == sent.instanceId && r.revision >= sent.revision
    && (r.revision == sent.revision ==> r.hash == sent.hash)
  }

  ghost predicate ConfirmsSome(r: Registered, sent: seq<Registered>) { exists s :: s in sent && Confirms(r, s) }

  /** A one-to-one cover of what was sent. */
  ghost predicate Covers(items: seq<RawItem>, sent: seq<Registered>) {
    && (forall x :: x in items ==> x.RawItem? && ValidRegistered(x.item) && ConfirmsSome(x.item, sent))
    && Distinct(IdsOfItems(items))
    && Members(IdsOfItems(items)) == Members(InstanceIds(sent))
  }

  function IdOf(x: RawItem): string { if x.RawItem? then x.item.instanceId else "" }

  function IdsOfItems(items: seq<RawItem>): seq<string> { Map(items, (x: RawItem) => IdOf(x)) }

  function Items(items: seq<RawItem>): seq<Registered> {
    Map(items, (x: RawItem) => if x.RawItem? then x.item else Registered("", 0, ""))
  }

  lemma {:induction false} SentIsFound(sent: seq<Registered>, r: Registered, s: Registered)
    requires Distinct(InstanceIds(sent)) && s in sent && s.instanceId == r.instanceId
    ensures Find(sent, (x: Registered) => x.instanceId == r.instanceId) == Some(s)
  {
    var found := Find(sent, (x: Registered) => x.instanceId == r.instanceId).value;
    var i :| 0 <= i < |sent| && sent[i] == s;
    var j :| 0 <= j < |sent| && sent[j] == found;
    assert InstanceIds(sent)[i] == InstanceIds(sent)[j];
  }

  predicate ItemAccepted(x: RawItem, sent: seq<Registered>) {
    x.RawItem? && ValidRegistered(x.item)
    && var found := Find(sent, (s: Registered) => s.instanceId == x.item.instanceId);
       found.Some? && Confirms(x.item, found.value)
  }

  lemma {:induction false} ItemAcceptedIs(x: RawItem, sent: seq<Registered>)
    requires Distinct(InstanceIds(sent))
    ensures ItemAccepted(x, sent) <==> x.RawItem? && ValidRegistered(x.item) && ConfirmsSome(x.item, sent)
  {
    hide Distinct, ValidRegistered;
    if x.RawItem? && ConfirmsSome(x.item, sent) {
      var s :| s in sent && Confirms(x.item, s);
      SentIsFound(sent, x.item, s);
    }
  }

  lemma {:induction false} CoverByCount(items: seq<RawItem>, sent: seq<Registered>)
    requires Distinct(InstanceIds(sent)) && |items| == |sent|
    requires forall x :: x in items ==> ItemAccepted(x, sent)
    requires Distinct(IdsOfItems(items))
    ensures Covers(items, sent)
  {
    var ids := IdsOfItems(items);
    MapMembers(items, (x: RawItem) => IdOf(x));
    MapMembers(sent, (s: Registered) => s.instanceId);
    hide Distinct, ValidRegistered;
    forall x | x in items ensures x.RawItem? && ValidRegistered(x.item) && ConfirmsSome(x.item, sent) {
      ItemAcceptedIs(x, sent);
    }
    forall id | id in ids ensures id in InstanceIds(sent) {
      var x :| x in items && IdOf(x) == id;
      var s :| s in sent && Confirms(x.item, s);
    }
    CoverIsExact(ids, InstanceIds(sent));
  }

  lemma {:induction false} CoverCounts(items: seq<RawItem>, sent: seq<Registered>)
    requires Distinct(InstanceIds(sent)) && Covers(items, sent)
    ensures |items| == |sent| && Distinct(IdsOfItems(items)) && forall x :: x in items ==> ItemAccepted(x, sent)
  {
    ExactHasSameSize(IdsOfItems(items), InstanceIds(sent));
    hide Distinct, ValidRegistered;
    forall x | x in items ensures ItemAccepted(x, sent) {
      ItemAcceptedIs(x, sent);
    }
  }

  /** The loop over the received items: all acceptable, no instance twice. */
  method ParseItems(raw: seq<RawItem>, sent: seq<Registered>) returns (ok: bool, items: seq<Registered>)
    ensures ok <==> (forall x :: x in raw ==> ItemAccepted(x, sent)) && Distinct(IdsOfItems(raw))
    ensures ok ==> items == Items(raw)
  {
    hide Distinct, ItemAccepted, IdOf, IdsOfItems, Items;
    items := [];
    var seen: set<string> := {};
    EmptyItems();
    for i := 0 to |raw|
      invariant items == Items(raw[..i]) && Distinct(IdsOfItems(raw[..i]))
      invariant forall j :: 0 <= j < i ==> ItemAccepted(raw[j], sent)
      invariant forall id :: id in seen <==> id in IdsOfItems(raw[..i])
    {
      var x := raw[i];
      assert x in raw;
      assert raw[..i + 1] == raw[..i] + [x];
      IdsSnoc(raw[..i], x);
      if !ItemAccepted(x, sent) || IdOf(x) in seen {
        IdsPrefix(raw, i + 1);
        return false, [];
      }
      AcceptedIsShaped(x, sent);
      seen := seen + {IdOf(x)};
      items := items + [x.item];
    }
    assert raw[..|raw|] == raw;
    return true, items;
  }

  /** A receipt is accepted exactly when it is a one-to-one cover of what was sent to this child. */
  method ParseRegistrationReceipt(value: RawReceipt, childId: string, sent: seq<Registered>)
    returns (accepted: bool, items: seq<Registered>)
    ensures accepted <==> ValidSent(childId, sent) && value.RawReceipt? && value.schemaVersion == 1
                          && value.childId == childId && Covers(value.items, sent)
    ensures accepted ==> items == Items(value.items)
  {
    hide Distinct, ValidRegistered, Token, Covers, ItemAccepted, Items, IdsOfItems, InstanceIds;
    var distinct := AllDistinct(InstanceIds(sent));
    if !Token(childId) || |sent| > 100 || !distinct || exists r :: r in sent && !ValidRegistered(r) {
      return false, [];
    }
    if !value.RawReceipt? || value.schemaVersion != 1 || value.childId != childId {
      return false, [];
    }
    if Covers(value.items, sent) {
      CoverCounts(value.items, sent);
    }
    if |value.items| != |sent| {
      return false, [];
    }
    var ok, parsed := ParseItems(value.items, sent);
    if !ok {
      return false, [];
    }
    CoverByCount(value.items, sent);
    return true, parsed;
  }

  lemma {:induction false} EmptyItems()
    ensures Items([]) == [] && IdsOfItems([]) == [] && Distinct(IdsOfItems([]))
  {
  }

  lemma {:induction false} AcceptedIsShaped(x: RawItem, sent: seq<Registered>)
    requires ItemAccepted(x, sent)
    ensures x.RawItem?
  {
  }

  lemma {:induction false} IdsSnoc(raw: seq<RawItem>, x: RawItem)
    ensures IdsOfItems(raw + [x]) == IdsOfItems(raw) + [IdOf(x)]
    ensures Distinct(IdsOfItems(raw + [x])) <==> Distinct(IdsOfItems(raw)) && IdOf(x) !in IdsOfItems(raw)
    ensures x.RawItem? ==> Items(raw + [x]) == Items(raw) + [x.item]
  {
    hide Distinct;
    MapConcat(raw, [x], (y: RawItem) => IdOf(y));
    MapConcat(raw, [x], (y: RawItem) => if y.RawItem? then y.item else Registered("", 0, ""));
    assert IdsOfItems([x]) == [IdOf(x)];
    DistinctSnoc(IdsOfItems(raw), IdOf(x));
  }

  lemma {:induction false} IdsPrefix(raw: seq<RawItem>, n: nat)
    requires n <= |raw|
    ensures Distinct(IdsOfItems(raw)) ==> Distinct(IdsOfItems(raw[..n]))
  {
    assert forall i :: 0 <= i < n ==> IdsOfItems(raw[..n])[i] == IdsOfItems(raw)[i];
  }

  lemma {:induction false} EmptyIsDistinct()
    ensures Distinct<string>([])
  {
  }

  /** The size test on a set of the elements. */
  method AllDistinct(s: seq<string>) returns (r: bool)
    ensures r <==> Distinct(s)
  {
    hide Distinct;
    EmptyIsDistinct();
    for i := 0 to |s|
      invariant Distinct(s[..i])
    {
      assert s[..i + 1] == s[..i] + [s[i]];
      DistinctSnoc(s[..i], s[i]);
      if s[i] in s[..i] {
        if Distinct(s) {
          DistinctPrefix(s, i + 1);
        }
        return false;
      }
    }
    assert s[..|s|] == s;
    return true;
  }

  /** Any order of exactly what was sent is an acceptable receipt. */
  lemma {:induction false} EveryPermutationCovers(childId: string, sent: seq<Registered>, order: seq<Registered>)
    requires ValidSent(childId, sent) && multiset(order) == multiset(sent)
    ensures Covers(Map(order, (r: Registered) => RawItem(r)), sent)
  {
    var items := Map(order, (r: Registered) => RawItem(r));
    var ids := IdsOfItems(items);
    SameMembers(order, sent);
    MapPermutes(order, sent, (r: Registered) => r.instanceId);
    MapMembers(order, (r: Registered) => RawItem(r));
    assert ids == InstanceIds(order);
    SameMembers(InstanceIds(order), InstanceIds(sent));
    DistinctPermutes(InstanceIds(sent), InstanceIds(order));
    hide Distinct, ValidRegistered;
    forall x | x in items ensures x.RawItem? && ValidRegistered(x.item) && ConfirmsSome(x.item, sent) {
      assert x.item in sent && Confirms(x.item, x.item);
    }
    assert Members(ids) == Members(InstanceIds(sent));
  }

  // ----- installation links

  datatype Link = Link(variantKey: string, instanceId: string)

  datatype RawLink = MalformedLink | RawLink(link: Link)

  datatype RawBatch = MalformedBatch | RawBatch(
    schemaVersion: int, childId: string, localUserId: string, assignmentVersion: int, scanId: string,
        links: seq<RawLink>)

  datatype Scope = Scope(machineId: string, childId: string, localUserId: string, assignmentVersion: int,
                         scanId: string)

  predicate IsScanId(s: string) { |s| == 32 && forall c :: c in s ==> IsHexDigit(c) }

  predicate ValidScope(s: Scope) {
    Token(s.machineId) && Token(s.childId) && Token(s.localUserId) && |s.localUserId| <= 128
    && Revision(s.assignmentVersion) && IsScanId(s.scanId)
  }

  predicate ValidLink(x: RawLink) { x.RawLink? && Token(x.link.variantKey) && IsHash(x.link.instanceId) }

  function Links(raw: seq<RawLink>): seq<Link> {
    Map(raw, (x: RawLink) => if x.RawLink? then x.link else Link("", ""))
  }

  /** A batch of between 1 and 100 different links of the scope. */
  ghost predicate ValidBatch(b: RawBatch, s: Scope) {
    && ValidScope(s) && b.RawBatch? && b.schemaVersion == 1 && b.childId == s.childId && b.localUserId == s.localUserId
    && b.assignmentVersion == s.assignmentVersion && b.scanId == s.scanId
    && 1 <= |b.links| <= 100 && (forall x :: x in b.links ==> ValidLink(x)) && Distinct(Links(b.links))
  }

  method ParseInstallationLinkBatch(value: RawBatch, scope: Scope) returns (accepted: bool, links: seq<Link>)
    ensures accepted <==> ValidBatch(value, scope)
    ensures accepted ==> links == Links(value.links)
  {
    hide Distinct, ValidLink, ValidScope, Links;
    if !ValidScope(scope) || !value.RawBatch? || value.schemaVersion != 1 || value.childId != scope.childId
       || value.localUserId != scope.localUserId || value.assignmentVersion != scope.assignmentVersion
       || value.scanId != scope.scanId || |value.links| < 1 || |value.links| > 100 {
      return false, [];
    }
    links := [];
    EmptyLinks();
    for i := 0 to |value.links|
      invariant links == Links(value.links[..i]) && Distinct(links)
      invariant forall j :: 0 <= j < i ==> ValidLink(value.links[j])
    {
      var link := value.links[i];
      assert link in value.links;
      assert value.links[..i + 1] == value.links[..i] + [link];
      LinksSnoc(value.links[..i], link);
      if !ValidLink(link) || (link.RawLink? && link.link in links) {
        LinksPrefix(value.links, i + 1);
        return false, [];
      }
      ValidIsShaped(link);
      links := links + [link.link];
    }
    assert value.links[..|value.links|] == value.links;
    return true, links;
  }

  lemma {:induction false} ValidIsShaped(x: RawLink)
    requires ValidLink(x)
    ensures x.RawLink?
  {
  }

  lemma {:induction false} EmptyLinks()
    ensures Links([]) == [] && Distinct(Links([]))
  {
  }

  lemma {:induction false} LinksSnoc(raw: seq<RawLink>, x: RawLink)
    ensures x.RawLink? ==> Links(raw + [x]) == Links(raw) + [x.link]
    ensures x.RawLink? ==> (Distinct(Links(raw + [x])) <==> Distinct(Links(raw)) && x.link !in Links(raw))
    ensures !x.RawLink? ==> !ValidLink(x)
  {
    hide Distinct;
    MapConcat(raw, [x], (y: RawLink) => if y.RawLink? then y.link else Link("", ""));
    if x.RawLink? {
      DistinctSnoc(Links(raw), x.link);
    }
  }

  lemma {:induction false} LinksPrefix(raw: seq<RawLink>, n: nat)
    requires n <= |raw|
    ensures Distinct(Links(raw)) ==> Distinct(Links(raw[..n]))
  {
    assert forall i :: 0 <= i < n ==> Links(raw[..n])[i] == Links(raw)[i];
  }

  function ScopeOf(b: RawBatch, machineId: string): Scope
    requires b.RawBatch?
  {
    Scope(machineId, b.childId, b.localUserId, b.assignmentVersion, b.scanId)
  }

  /** A link receipt is accepted exactly when it lists the links of a valid batch, each once, in any order. */
  method ParseInstallationLinkReceipt(value: RawBatch, expected: RawBatch, machineId: string)
    returns (accepted: bool, links: seq<Link>)
    requires expected.RawBatch?
    ensures accepted <==> ValidBatch(expected, ScopeOf(expected, machineId))
                          && ValidBatch(value, ScopeOf(expected, machineId))
                          && Members(Links(value.links)) == Members(Links(expected.links))
    ensures accepted ==> links == Links(value.links)
  {
    hide Distinct, Links, Token, ValidLink;
    var scope := ScopeOf(expected, machineId);
    var sentOk, sent := ParseInstallationLinkBatch(expected, scope);
    var receivedOk, received := ParseInstallationLinkBatch(value, scope);
    if !sentOk || !receivedOk {
      return false, [];
    }
    if |received| != |sent| {
      if Members(received) == Members(sent) {
        ExactHasSameSize(received, sent);
      }
      return false, [];
    }
    if exists link :: link in received && link !in sent {
      assert forall link :: link in Members(received) <==> link in received;
      assert forall link :: link in Members(sent) <==> link in sent;
      return false, [];
    }
    CoverIsExact(received, sent);
    return true, received;
  }

  lemma {:induction false} EveryLinkOrderIsAccepted(sent: RawBatch, order: seq<RawLink>, s: Scope)
    requires ValidBatch(sent, s) && multiset(order) == multiset(sent.links)
    ensures ValidBatch(sent.(links := order), s) && Members(Links(order)) == Members(Links(sent.links))
  {
    SameMembers(order, sent.links);
    MapPermutes(order, sent.links, (x: RawLink) => if x.RawLink? then x.link else Link("", ""));
    DistinctPermutes(Links(sent.links), Links(order));
    SameMembers(Links(order), Links(sent.links));
    hide Distinct, ValidLink, ValidScope;
  }

  // ----- mapping responses

  datatype MappingState = ConfirmedState | UnresolvedState | ConflictState | PendingState

  datatype ProductName = ProductName(id: string, name: string)

  datatype RawProduct = MalformedProduct | RawProduct(product: ProductName)

  datatype MappingItem = MappingItem(instanceId: string, revision: int, state: MappingState, productId: Option<string>)

  datatype RawMapping = MalformedMapping | RawMapping(item: MappingItem)

  datatype RawResponse = MalformedResponse | RawResponse(
    schemaVersion: int, childId: string, assignmentVersion: int, catalogVersion: Option<int>,
    items: seq<RawMapping>, products: seq<RawProduct>)

  datatype Request = Request(childId: string, localUserId: string, assignmentVersion: int, instanceIds: seq<string>)

  ghost predicate ValidRequest(r: Request) {
    Token(r.childId) && Token(r.localUserId) && Revision(r.assignmentVersion)
    && 1 <= |r.instanceIds| <= 100 && (forall id :: id in r.instanceIds ==> IsHash(id)) && Distinct(r.instanceIds)
  }

  predicate ValidProduct(x: RawProduct) {
    && x.RawProduct? && Token(x.product.id) && 1 <= |x.product.name| <= 256
    && forall c :: c in x.product.name ==> c as int > 0x1F
  }

  predicate ValidMapping(x: RawMapping, r: Request, catalogVersion: Option<int>, productIds: seq<string>) {
    x.RawMapping? && IsHash(x.item.instanceId) && x.item.instanceId in r.instanceIds && Revision(x.item.revision)
    && (catalogVersion.None? ==> x.item.state == PendingState)
    && (if x.item.state == ConfirmedState
        then x.item.productId.Some? && Token(x.item.productId.value) && x.item.productId.value in productIds
        else x.item.productId.None?)
  }

  function ProductIdOf(x: RawProduct): string { if x.RawProduct? then x.product.id else "" }

  function InstanceOf(x: RawMapping): string { if x.RawMapping? then x.item.instanceId else "" }

  function ProductIdsOf(raw: seq<RawProduct>): seq<string> { Map(raw, (x: RawProduct) => ProductIdOf(x)) }

  function InstancesOf(raw: seq<RawMapping>): seq<string> { Map(raw, (x: RawMapping) => InstanceOf(x)) }

  /** The products of the confirmed items. */
  function Used(raw: seq<RawMapping>): set<string> {
    set x | x in raw && x.RawMapping? && x.item.state == ConfirmedState
        && x.item.productId.Some? :: x.item.productId.value
  }

  predicate ValidHeader(v: RawResponse, r: Request) {
    v.RawResponse? && v.schemaVersion == 1 && v.childId == r.childId && v.assignmentVersion == r.assignmentVersion
    && (v.catalogVersion.Some? ==> 0 <= v.catalogVersion.value <= MAX_SAFE_INTEGER)
  }

  /** The response covers exactly the requested instances, each once, and lists exactly the products
      that are confirmed, each once. */
  ghost predicate Answers(v: RawResponse, r: Request) {
    && ValidHeader(v, r)
    && (forall x :: x in v.products ==> ValidProduct(x)) && Distinct(ProductIdsOf(v.products))
    && (forall x :: x in v.items ==> ValidMapping(x, r, v.catalogVersion, ProductIdsOf(v.products)))
    && Distinct(InstancesOf(v.items)) && Members(InstancesOf(v.items)) == Members(r.instanceIds)
    && Used(v.items) == Members(ProductIdsOf(v.products))
  }

  /** What an accepted response is read as. */
  datatype MappingReadResponse = MappingReadResponse(
    childId: string, assignmentVersion: int, catalogVersion: Option<int>, items: seq<MappingItem>,
        products: seq<ProductName>)

  function ItemsOf(raw: seq<RawMapping>): seq<MappingItem> {
    Map(raw, (x: RawMapping) => if x.RawMapping? then x.item else MappingItem("", 0, PendingState, None))
  }

  function ProductsOf(raw: seq<RawProduct>): seq<ProductName> {
    Map(raw, (x: RawProduct) => if x.RawProduct? then x.product else ProductName("", ""))
  }

  lemma {:induction false} ItemsOfSnoc(raw: seq<RawMapping>, x: RawMapping)
    ensures x.RawMapping? ==> ItemsOf(raw + [x]) == ItemsOf(raw) + [x.item]
  {
  }

  lemma {:induction false} ProductsOfSnoc(raw: seq<RawProduct>, x: RawProduct)
    ensures x.RawProduct? ==> ProductsOf(raw + [x]) == ProductsOf(raw) + [x.product]
  {
  }

  lemma {:induction false} ProductIsShaped(x: RawProduct)
    ensures ValidProduct(x) ==> x.RawProduct?
  {
  }

  method ParseProducts(raw: seq<RawProduct>) returns (ok: bool, products: seq<ProductName>, ids: set<string>)
    ensures ok <==> (forall x :: x in raw ==> ValidProduct(x)) && Distinct(ProductIdsOf(raw))
    ensures ok ==> ids == Members(ProductIdsOf(raw)) && |ids| == |raw| && products == ProductsOf(raw)
  {
    hide Distinct, ValidProduct, ProductIdOf, Members, ProductsOf;
    products, ids := [], {};
    EmptyProducts();
    for i := 0 to |raw|
      invariant ids == Members(ProductIdsOf(raw[..i])) && Distinct(ProductIdsOf(raw[..i]))
                && products == ProductsOf(raw[..i])
      invariant forall j :: 0 <= j < i ==> ValidProduct(raw[j])
    {
      var x := raw[i];
      assert x in raw;
      assert raw[..i + 1] == raw[..i] + [x];
      ProductIdsSnoc(raw[..i], x);
      if !ValidProduct(x) || ProductIdOf(x) in ids {
        ProductIdsPrefix(raw, i + 1);
        return false, [], {};
      }
      ProductIsShaped(x);
      ProductsOfSnoc(raw[..i], x);
      products, ids := products + [x.product], ids + {ProductIdOf(x)};
    }
    assert raw[..|raw|] == raw;
    DistinctCount(ProductIdsOf(raw));
    return true, products, ids;
  }

  lemma {:induction false} EmptyProducts()
    ensures ProductIdsOf([]) == [] && Distinct(ProductIdsOf([])) && Members(ProductIdsOf([])) == {}
    ensures InstancesOf([]) == [] && Distinct(InstancesOf([])) && Members(InstancesOf([])) == {}
    ensures ProductsOf([]) == [] && ItemsOf([]) == []
  {
  }

  lemma {:induction false} MembersSnoc(s: seq<string>, x: string)
    ensures Members(s + [x]) == Members(s) + {x}
    ensures x in Members(s) <==> x in s
  {
  }

  lemma {:induction false} ProductIdsSnoc(raw: seq<RawProduct>, x: RawProduct)
    ensures Members(ProductIdsOf(raw + [x])) == Members(ProductIdsOf(raw)) + {ProductIdOf(x)}
    ensures Distinct(ProductIdsOf(raw + [x]))
            <==> Distinct(ProductIdsOf(raw)) && ProductIdOf(x) !in Members(ProductIdsOf(raw))
  {
    hide Distinct, Members;
    MapConcat(raw, [x], (y: RawProduct) => ProductIdOf(y));
    assert ProductIdsOf([x]) == [ProductIdOf(x)];
    DistinctSnoc(ProductIdsOf(raw), ProductIdOf(x));
    MembersSnoc(ProductIdsOf(raw), ProductIdOf(x));
  }

  lemma {:induction false} ProductIdsPrefix(raw: seq<RawProduct>, n: nat)
    requires n <= |raw|
    ensures Distinct(ProductIdsOf(raw)) ==> Distinct(ProductIdsOf(raw[..n]))
  {
    assert forall i :: 0 <= i < n ==> ProductIdsOf(raw[..n])[i] == ProductIdsOf(raw)[i];
  }

  lemma {:induction false} InstancesSnoc(raw: seq<RawMapping>, x: RawMapping)
    ensures Members(InstancesOf(raw + [x])) == Members(InstancesOf(raw)) + {InstanceOf(x)}
    ensures Distinct(InstancesOf(raw + [x]))
            <==> Distinct(InstancesOf(raw)) && InstanceOf(x) !in Members(InstancesOf(raw))
  {
    hide Distinct, Members;
    MapConcat(raw, [x], (y: RawMapping) => InstanceOf(y));
    assert InstancesOf([x]) == [InstanceOf(x)];
    DistinctSnoc(InstancesOf(raw), InstanceOf(x));
    MembersSnoc(InstancesOf(raw), InstanceOf(x));
  }

  lemma {:induction false} InstancesPrefix(raw: seq<RawMapping>, n: nat)
    requires n <= |raw|
    ensures Distinct(InstancesOf(raw)) ==> Distinct(InstancesOf(raw[..n]))
  {
    assert forall i :: 0 <= i < n ==> InstancesOf(raw[..n])[i] == InstancesOf(raw)[i];
  }

  /** The loop over the items: all valid, no instance twice; returns the products in use. */
  method ParseMappings(raw: seq<RawMapping>, r: Request, catalogVersion: Option<int>, productIds: seq<string>,
                       known: set<string>)
    returns (ok: bool, items: seq<MappingItem>, used: set<string>)
    requires known == Members(productIds)
    ensures ok <==> (forall x :: x in raw ==> ValidMapping(x, r, catalogVersion, productIds))
                    && Distinct(InstancesOf(raw))
    ensures ok ==> used == Used(raw) && used <= known && items == ItemsOf(raw)
  {
    hide Distinct, Members, InstanceOf, Token, IsHash, ItemsOf;
    items, used := [], {};
    var seen: set<string> := {};
    EmptyProducts();
    for i := 0 to |raw|
      invariant seen == Members(InstancesOf(raw[..i])) && Distinct(InstancesOf(raw[..i]))
      invariant forall j :: 0 <= j < i ==> ValidMapping(raw[j], r, catalogVersion, productIds)
      invariant used == Used(raw[..i]) && used <= known && items == ItemsOf(raw[..i])
    {
      var x := raw[i];
      assert x in raw;
      assert raw[..i + 1] == raw[..i] + [x];
      InstancesSnoc(raw[..i], x);
      if !ValidMapping(x, r, catalogVersion, productIds) || InstanceOf(x) in seen {
        InstancesPrefix(raw, i + 1);
        return false, [], {};
      }
      ItemsOfSnoc(raw[..i], x);
      items := items + [x.item];
      if x.item.state == ConfirmedState {
        MembersSnoc(productIds, x.item.productId.value);
        used := used + {x.item.productId.value};
      }
      seen := seen + {InstanceOf(x)};
    }
    assert raw[..|raw|] == raw;
    return true, items, used;
  }

  lemma {:induction false} UsedIsFew(raw: seq<RawMapping>)
    ensures |Used(raw)| <= |raw|
  {
    if raw != [] {
      var init, last := raw[..|raw| - 1], raw[|raw| - 1];
      UsedIsFew(init);
      assert raw == init + [last];
      assert Used(raw) == Used(init) + Used([last]);
      var one := if last.RawMapping? && last.item.productId.Some? then {last.item.productId.value} else {};
      assert Used([last]) <= one;
      assert Used(raw) <= Used(init) + one;
      CardinalityOfSubset(Used(raw), Used(init) + one);
    }
  }

  lemma {:induction false} CardinalityOfSubset(a: set<string>, b: set<string>)
    requires a <= b
    ensures |a| <= |b|
  {
    assert b == a + (b - a);
  }

  method ParseRequest(r: Request) returns (ok: bool)
    ensures ok <==> ValidRequest(r)
  {
    hide Distinct, Token, IsHash;
    var distinct := AllDistinct(r.instanceIds);
    ok := Token(r.childId) && Token(r.localUserId) && Revision(r.assignmentVersion) && 1 <= |r.instanceIds| <= 100
          && (forall id :: id in r.instanceIds ==> IsHash(id)) && distinct;
  }

  /** A mapping response is accepted exactly when it answers the request, and is then returned as it came. */
  method ParseMappingReadResponse(v: RawResponse, r: Request) returns (response: Option<MappingReadResponse>)
    ensures response.Some? <==> ValidRequest(r) && Answers(v, r)
    ensures response.Some? ==>
              response.value == MappingReadResponse(v.childId, v.assignmentVersion, v.catalogVersion, ItemsOf(v.items),
                                                    ProductsOf(v.products))
  {
    hide ItemsOf, ProductsOf, Distinct, Members, ValidMapping, ValidProduct, InstancesOf, ProductIdsOf, Used, Token;
    var requestOk := ParseRequest(r);
    if !requestOk {
      return None;
    }
    if !ValidHeader(v, r) {
      return None;
    }
    if |v.items| != |r.instanceIds| || |v.products| > |v.items| {
      if Answers(v, r) {
        AnswerCounts(v, r);
      }
      return None;
    }
    var productsOk, products, ids := ParseProducts(v.products);
    if !productsOk {
      return None;
    }
    var itemsOk, items, used := ParseMappings(v.items, r, v.catalogVersion, ProductIdsOf(v.products), ids);
    if !itemsOk {
      return None;
    }
    if |used| != |ids| {
      return None;
    }
    SubsetOfSameSize(used, ids);
    InstancesCover(v, r);
    return Some(MappingReadResponse(r.childId, r.assignmentVersion, v.catalogVersion, items, products));
  }

  lemma {:induction false} SubsetOfSameSize(a: set<string>, b: set<string>)
    requires a <= b && |a| == |b|
    ensures a == b
  {
    assert b == a + (b - a);
    assert |b| == |a| + |b - a|;
  }

  lemma {:induction false} AnswerCounts(v: RawResponse, r: Request)
    requires ValidRequest(r) && Answers(v, r)
    ensures |v.items| == |r.instanceIds| && |v.products| <= |v.items|
  {
    hide Distinct, Members, ValidMapping, ValidProduct, Used;
    ExactHasSameSize(InstancesOf(v.items), r.instanceIds);
    DistinctCount(ProductIdsOf(v.products));
    UsedIsFew(v.items);
  }

  lemma {:induction false} InstancesCover(v: RawResponse, r: Request)
    requires ValidRequest(r) && v.RawResponse? && |v.items| == |r.instanceIds| && Distinct(InstancesOf(v.items))
    requires forall x :: x in v.items ==> ValidMapping(x, r, v.catalogVersion, ProductIdsOf(v.products))
    ensures Members(InstancesOf(v.items)) == Members(r.instanceIds)
  {
    hide Distinct, Members, Token, IsHash, ProductIdsOf;
    MapMembers(v.items, (x: RawMapping) => InstanceOf(x));
    CoverIsExact(InstancesOf(v.items), r.instanceIds);
  }
}
