/** What the parsers of server replies accept, written out field by field. */
module ReceiptMeanings {
  import opened Wrappers
  import opened Sequences
  import opened LegacyConversion
  import opened Receipts

  /** Text of at most 256 characters that can be shown. */
  predicate Shown(s: string) { s != "" && |s| < 257 && forall i :: 0 <= i < |s| ==> !IsControl(s[i]) }

  lemma {:induction false} TokenIs(s: string)
    ensures Token(s) <==> Shown(s)
  {
    assert forall i :: 0 <= i < |s| ==> s[i] in s;
  }

  predicate Hex(s: string, n: nat) { |s| == n && forall i :: 0 <= i < n ==> s[i] in "0123456789abcdef" }

  lemma {:induction false} HexIs(s: string)
    ensures IsHash(s) <==> Hex(s, 64)
    ensures IsScanId(s) <==> Hex(s, 32)
  {
    HashShapeIs(s);
    forall c ensures IsHexDigit(c) <==> c in "0123456789abcdef" {
      HexDigitIs(c);
    }
    hide IsHexDigit, IsHash;
  }

  // ----- registrations

  predicate WellShaped(r: Registered) { Hex(r.instanceId, 64) && Hex(r.hash, 64)
                                       && 0 < r.revision <= 0x1F_FFFF_FFFF_FFFF }

  /** Nothing goes back: a later revision, or the same one with the same evidence. */
  predicate UpToDate(received: Registered, sent: Registered) {
    received.revision > sent.revision || (received.revision == sent.revision && received.hash == sent.hash)
  }

  /** The received items and the sent ones are the same instances one by one, each well shaped and up to date. */
  ghost predicate OneByOne(items: seq<RawItem>, sent: seq<Registered>) {
    && (forall x :: x in items ==> x.RawItem? && WellShaped(x.item) && Confirmed(x.item, sent))
    && (forall i, j :: 0 <= i < j < |items| ==> IdOf(items[i]) != IdOf(items[j]))
    && (forall s :: s in sent ==> Received(items, s.instanceId))
  }

  ghost predicate Received(items: seq<RawItem>, id: string) {
    exists x :: x in items && x.RawItem? && x.item.instanceId == id
  }

  ghost predicate Confirmed(received: Registered, sent: seq<Registered>) {
    exists s :: s in sent && s.instanceId == received.instanceId && UpToDate(received, s)
  }

  lemma {:induction false} RegisteredIs(r: Registered, sent: seq<Registered>)
    ensures ValidRegistered(r) <==> WellShaped(r)
    ensures ConfirmsSome(r, sent) <==> Confirmed(r, sent)
  {
    HexIs(r.instanceId);
    HexIs(r.hash);
    hide IsHash, Hex;
    forall s: Registered ensures Confirms(r, s) <==> s.instanceId == r.instanceId && UpToDate(r, s) {
    }
    hide Confirms, UpToDate;
  }

  lemma {:induction false} CoversMeans(items: seq<RawItem>, sent: seq<Registered>)
    ensures Covers(items, sent) <==> OneByOne(items, sent)
  {
    hide ValidRegistered, WellShaped, ConfirmsSome, Confirmed, Distinct, Members, IdsOfItems, InstanceIds;
    forall x | x in items && x.RawItem?
      ensures ValidRegistered(x.item) && ConfirmsSome(x.item, sent) <==> WellShaped(x.item) && Confirmed(x.item, sent)
    {
      RegisteredIs(x.item, sent);
    }
    IdsAre(items, sent);
    if forall x :: x in items ==> x.RawItem? && Confirmed(x.item, sent) {
      SentAreReceived(items, sent);
    }
  }

  lemma {:induction false} IdsAre(items: seq<RawItem>, sent: seq<Registered>)
    ensures Distinct(IdsOfItems(items)) <==> forall i, j :: 0 <= i < j < |items| ==> IdOf(items[i]) != IdOf(items[j])
    ensures forall id :: id in Members(IdsOfItems(items)) <==> exists x :: x in items && IdOf(x) == id
    ensures forall id :: id in Members(InstanceIds(sent)) <==> exists s :: s in sent && s.instanceId == id
  {
    MapMembers(items, (x: RawItem) => IdOf(x));
    MapMembers(sent, (r: Registered) => r.instanceId);
  }

  lemma {:induction false} ReceivedAre(items: seq<RawItem>, id: string)
    requires forall x :: x in items ==> x.RawItem?
    ensures id in Members(IdsOfItems(items)) <==> Received(items, id)
  {
    MapMembers(items, (x: RawItem) => IdOf(x));
  }

  lemma {:induction false} SentAreReceived(items: seq<RawItem>, sent: seq<Registered>)
    requires forall x :: x in items ==> x.RawItem? && Confirmed(x.item, sent)
    ensures Members(IdsOfItems(items)) == Members(InstanceIds(sent))
            <==> forall s :: s in sent ==> Received(items, s.instanceId)
  {
    hide Distinct, IdsOfItems, InstanceIds, UpToDate, Members, Received, IdOf;
    IdsAre(items, sent);
    var a, b := Members(IdsOfItems(items)), Members(InstanceIds(sent));
    forall id ensures id in a <==> Received(items, id) {
      ReceivedAre(items, id);
    }
    forall id | id in a ensures id in b {
      ReceivedIsSent(items, sent, id);
    }
  }

  lemma {:induction false} ReceivedIsSent(items: seq<RawItem>, sent: seq<Registered>, id: string)
    requires Received(items, id) && forall x :: x in items ==> x.RawItem? && Confirmed(x.item, sent)
    ensures id in Members(InstanceIds(sent))
  {
    IdsAre(items, sent);
    hide Members, UpToDate, InstanceIds;
    var x :| x in items && x.RawItem? && x.item.instanceId == id;
    assert Confirmed(x.item, sent);
  }

  // ----- links

  /** A batch of 1 to 100 different links for the machine, the child and the user of the scope. */
  lemma {:induction false} BatchMeans(b: RawBatch, s: Scope)
    ensures ValidBatch(b, s)
            <==> && b.RawBatch? && b.schemaVersion == 1
                 && Scope(s.machineId, b.childId, b.localUserId, b.assignmentVersion, b.scanId) == s
                 && Shown(s.machineId) && Shown(s.childId) && Shown(s.localUserId) && |s.localUserId| < 129
                 && 0 < s.assignmentVersion <= 0x1F_FFFF_FFFF_FFFF && Hex(s.scanId, 32)
                 && b.links != [] && |b.links| < 101
                 && (forall x :: x in b.links ==> x.RawLink? && Shown(x.link.variantKey) && Hex(x.link.instanceId, 64))
                 && (forall i, j :: 0 <= i < j < |b.links| ==> b.links[i] != b.links[j])
  {
    hide Token, Shown, IsHash, IsScanId, Hex, Distinct, Links;
    TokenIs(s.machineId);
    TokenIs(s.childId);
    TokenIs(s.localUserId);
    HexIs(s.scanId);
    if b.RawBatch? {
      forall x | x in b.links && x.RawLink?
        ensures ValidLink(x) <==> Shown(x.link.variantKey) && Hex(x.link.instanceId, 64)
      {
        TokenIs(x.link.variantKey);
        HexIs(x.link.instanceId);
      }
      if forall x :: x in b.links ==> x.RawLink? {
        LinksAreDistinct(b.links);
      }
    }
  }

  lemma {:induction false} LinksAreDistinct(links: seq<RawLink>)
    requires forall x :: x in links ==> x.RawLink?
    ensures Distinct(Links(links)) <==> forall i, j :: 0 <= i < j < |links| ==> links[i] != links[j]
  {
    forall i, j | 0 <= i < j < |links| ensures Links(links)[i] == Links(links)[j] <==> links[i] == links[j] {
      assert links[i] in links && links[j] in links;
      assert links[i] == RawLink(links[i].link) && links[j] == RawLink(links[j].link);
    }
  }

  /** A request is for 1 to 100 different instances of one user. */
  lemma {:induction false} RequestMeans(r: Request)
    ensures ValidRequest(r)
            <==> && Shown(r.childId) && Shown(r.localUserId) && 0 < r.assignmentVersion <= 0x1F_FFFF_FFFF_FFFF
                 && r.instanceIds != [] && |r.instanceIds| < 101
                 && (forall i :: 0 <= i < |r.instanceIds| ==> Hex(r.instanceIds[i], 64))
                 && (forall i, j :: 0 <= i < j < |r.instanceIds| ==> r.instanceIds[i] != r.instanceIds[j])
  {
    hide Token, Shown, IsHash, Hex;
    TokenIs(r.childId);
    TokenIs(r.localUserId);
    forall id | id in r.instanceIds ensures IsHash(id) <==> Hex(id, 64) {
      HexIs(id);
    }
    assert forall i :: 0 <= i < |r.instanceIds| ==> r.instanceIds[i] in r.instanceIds;
  }

  /** At most 100 registrations of different instances can be waited for. */
  lemma {:induction false} SentMeans(childId: string, sent: seq<Registered>)
    ensures ValidSent(childId, sent)
            <==> && Shown(childId) && |sent| < 101
                 && (forall i :: 0 <= i < |sent| ==> WellShaped(sent[i]))
                 && (forall i, j :: 0 <= i < j < |sent| ==> sent[i].instanceId != sent[j].instanceId)
  {
    hide Token, Shown, WellShaped, ValidRegistered;
    TokenIs(childId);
    forall r | r in sent ensures ValidRegistered(r) <==> WellShaped(r) {
      RegisteredIs(r, sent);
    }
    assert forall i :: 0 <= i < |sent| ==> sent[i] in sent;
  }

  // ----- mappings

  /** The item answers for an instance that was asked about: confirmed with a listed product, or without any;
      before there is a catalogue everything is pending. */
  predicate AnswersFor(x: RawMapping, r: Request, catalogVersion: Option<int>, products: seq<RawProduct>) {
    && x.RawMapping? && Hex(x.item.instanceId, 64) && x.item.instanceId in r.instanceIds
    && 0 < x.item.revision <= 0x1F_FFFF_FFFF_FFFF
    && (x.item.state != PendingState ==> catalogVersion.Some?)
    && (match x.item.productId
        case Some(id) =>
          x.item.state == ConfirmedState && Shown(id) && exists y :: y in products && ProductIdOf(y) == id
        case None => x.item.state != ConfirmedState)
  }

  lemma {:induction false} MappingIs(x: RawMapping, r: Request, catalogVersion: Option<int>, products: seq<RawProduct>)
    ensures ValidMapping(x, r, catalogVersion, ProductIdsOf(products)) <==> AnswersFor(x, r, catalogVersion, products)
  {
    hide Token, Shown, IsHash, Hex, ProductIdOf;
    MapMembers(products, (y: RawProduct) => ProductIdOf(y));
    if x.RawMapping? {
      HexIs(x.item.instanceId);
      if x.item.productId.Some? {
        TokenIs(x.item.productId.value);
      }
    }
  }

  predicate ShownProduct(y: RawProduct) {
    && y.RawProduct? && Shown(y.product.id) && y.product.name != "" && |y.product.name| < 257
    && forall i :: 0 <= i < |y.product.name| ==> y.product.name[i] as int >= 0x20
  }

  lemma {:induction false} ProductIs(y: RawProduct)
    ensures ValidProduct(y) <==> ShownProduct(y)
  {
    if y.RawProduct? {
      hide Token, Shown;
      TokenIs(y.product.id);
      assert forall i :: 0 <= i < |y.product.name| ==> y.product.name[i] in y.product.name;
    }
  }

  /** Every item and product is acceptable; the items are those asked for, each once; the products are listed
      once each, and each is the product of some confirmed item. */
  lemma {:induction false} AnswersMeans(v: RawResponse, r: Request)
    requires v.RawResponse?
    ensures Answers(v, r)
            <==> && v.schemaVersion == 1 && v.childId == r.childId && v.assignmentVersion == r.assignmentVersion
                 && (v.catalogVersion.Some? ==> 0 <= v.catalogVersion.value < 0x20_0000_0000_0000)
                 && (forall y :: y in v.products ==> ShownProduct(y)) && Distinct(ProductIdsOf(v.products))
                 && (forall x :: x in v.items ==> AnswersFor(x, r, v.catalogVersion, v.products))
                 && Distinct(InstancesOf(v.items)) && Members(InstancesOf(v.items)) == Members(r.instanceIds)
                 && (forall y :: y in v.products ==> InUse(v.items, ProductIdOf(y)))
  {
    hide ValidProduct, ShownProduct, ValidMapping, AnswersFor, Distinct, ProductIdsOf, InstancesOf, Members, Used,
         InUse;
    forall y ensures ValidProduct(y) <==> ShownProduct(y) {
      ProductIs(y);
    }
    forall x ensures ValidMapping(x, r, v.catalogVersion, ProductIdsOf(v.products))
        <==> AnswersFor(x, r, v.catalogVersion, v.products) {
      MappingIs(x, r, v.catalogVersion, v.products);
    }
    if forall x :: x in v.items ==> AnswersFor(x, r, v.catalogVersion, v.products) {
      UsedIs(v, r);
    }
  }

  predicate ConfirmedAs(x: RawMapping, id: string) {
    x.RawMapping? && x.item.state == ConfirmedState && x.item.productId == Some(id)
  }

  ghost predicate InUse(items: seq<RawMapping>, id: string) { exists x :: x in items && ConfirmedAs(x, id) }

  lemma {:induction false} UsedAre(items: seq<RawMapping>, id: string)
    ensures id in Used(items) <==> InUse(items, id)
  {
  }

  lemma {:induction false} ListedAre(products: seq<RawProduct>, id: string)
    ensures id in Members(ProductIdsOf(products)) <==> exists y :: y in products && ProductIdOf(y) == id
  {
    MapMembers(products, (y: RawProduct) => ProductIdOf(y));
  }

  lemma {:induction false} UsedIs(v: RawResponse, r: Request)
    requires v.RawResponse? && forall x :: x in v.items ==> AnswersFor(x, r, v.catalogVersion, v.products)
    ensures Used(v.items) == Members(ProductIdsOf(v.products))
            <==> forall y :: y in v.products ==> InUse(v.items, ProductIdOf(y))
  {
    hide Used, Members, ProductIdsOf, ProductIdOf, InUse, AnswersFor;
    var used, listed := Used(v.items), Members(ProductIdsOf(v.products));
    forall id ensures id in used <==> InUse(v.items, id) {
      UsedAre(v.items, id);
    }
    forall id ensures id in listed <==> exists y :: y in v.products && ProductIdOf(y) == id {
      ListedAre(v.products, id);
    }
    forall id | InUse(v.items, id) ensures id in listed {
      UsedIsListed(v, r, id);
    }
  }

  lemma {:induction false} UsedIsListed(v: RawResponse, r: Request, id: string)
    requires v.RawResponse? && InUse(v.items, id)
    requires forall x :: x in v.items ==> AnswersFor(x, r, v.catalogVersion, v.products)
    ensures exists y :: y in v.products && ProductIdOf(y) == id
  {
    hide Shown, Hex, ProductIdOf;
    var x :| x in v.items && ConfirmedAs(x, id);
    assert AnswersFor(x, r, v.catalogVersion, v.products);
  }
}
