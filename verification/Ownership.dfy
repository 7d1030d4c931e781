/** Ownership rules (schema 4): which product a verified identity belongs to. */
module Ownership {
  import opened Wrappers
  import opened Sequences
  import opened Ordering
  import opened Evidence

  datatype OwnershipMatch =
    | BinaryHashIs(sha256: string)
    | AumidIs(aumid: string)
    | FileSeriesIs(fileSeriesKey: string)
    | SignatureIs(signerKey: string, signingIdentifier: string)

  datatype OwnershipRule = OwnershipRule(
    id: string, revision: nat, enabled: bool, platform: Platform, productId: string, match_: OwnershipMatch)

  datatype VerifiedEvidence = VerifiedEvidence(
    platform: Platform,
    binaryHash: Option<string>,
    aumid: Option<string>,
    fileSeriesKey: Option<string>,
    signerKey: Option<string>,
    signingIdentifier: Option<string>)

  predicate RuleMatches(r: OwnershipRule, ev: VerifiedEvidence) {
    && r.enabled && r.platform == ev.platform
    && (match r.match_
        case BinaryHashIs(sha256) => ev.binaryHash == Some(sha256)
        case AumidIs(aumid) => ev.aumid == Some(aumid)
        case FileSeriesIs(key) => ev.fileSeriesKey == Some(key)
        case SignatureIs(signer, identifier) => ev.signerKey == Some(signer)
                                                && ev.signingIdentifier == Some(identifier))
  }

  /** A rule matches by its own fields alone, and needs every one of them: any other value of one of them, or
      none, and the rule does not match; the other fields are not read. */
  lemma {:induction false} RuleReads(r: OwnershipRule, ev: VerifiedEvidence, other: Option<string>)
    requires RuleMatches(r, ev)
    ensures r.enabled && r.platform == ev.platform
    ensures RuleMatches(r, ev.(binaryHash := other)) <==> !r.match_.BinaryHashIs? || other == Some(r.match_.sha256)
    ensures RuleMatches(r, ev.(aumid := other)) <==> !r.match_.AumidIs? || other == Some(r.match_.aumid)
    ensures RuleMatches(r, ev.(fileSeriesKey := other))
            <==> !r.match_.FileSeriesIs? || other == Some(r.match_.fileSeriesKey)
    ensures RuleMatches(r, ev.(signerKey := other)) <==> !r.match_.SignatureIs? || other == Some(r.match_.signerKey)
    ensures RuleMatches(r, ev.(signingIdentifier := other))
            <==> !r.match_.SignatureIs? || other == Some(r.match_.signingIdentifier)
  {
  }

  /** An enabled rule of the platform matches the evidence that was read off it. */
  lemma {:induction false} RuleMatchesItsOwn(r: OwnershipRule, ev: VerifiedEvidence)
    requires r.enabled && r.platform == ev.platform
    ensures RuleMatches(r, match r.match_
                           case BinaryHashIs(v) => ev.(binaryHash := Some(v))
                           case AumidIs(v) => ev.(aumid := Some(v))
                           case FileSeriesIs(v) => ev.(fileSeriesKey := Some(v))
                           case SignatureIs(v, w) => ev.(signerKey := Some(v), signingIdentifier := Some(w)))
  {
  }

  datatype OwnershipStatus = Owned | Unowned | OwnershipConflict

  datatype OwnershipResult = OwnershipResult(status: OwnershipStatus, productId: Option<string>, ruleIds: seq<string>)

  predicate AllFor(rules: seq<OwnershipRule>, productId: string) {
    forall r :: r in rules ==> r.productId == productId
  }

  function MatchProductOwnership(rules: seq<OwnershipRule>, ev: VerifiedEvidence): OwnershipResult {
    var matched := Filter(rules, (r: OwnershipRule) => RuleMatches(r, ev));
    var ruleIds := SortIds(Map(matched, (r: OwnershipRule) => r.id));
    if matched == [] then OwnershipResult(Unowned, None, ruleIds)
    else if AllFor(matched, matched[0].productId) then OwnershipResult(Owned, Some(matched[0].productId), ruleIds)
    else OwnershipResult(OwnershipConflict, None, ruleIds)
  }

  /** Some enabled rule ties the evidence to the product. */
  ghost predicate TiedTo(rules: seq<OwnershipRule>, ev: VerifiedEvidence, productId: string) {
    exists r :: r in rules && r.productId == productId && RuleMatches(r, ev)
  }

  /** The result says whether the rules tie the evidence to no product, to one, or to several. */
  lemma {:induction false} OwnershipIs(rules: seq<OwnershipRule>, ev: VerifiedEvidence)
    ensures var r := MatchProductOwnership(rules, ev);
            && (r.status == Unowned <==> forall p :: !TiedTo(rules, ev, p))
            && (r.status == Owned <==> r.productId.Some?)
            && (forall p :: r.productId == Some(p)
                            <==> TiedTo(rules, ev, p) && forall q :: TiedTo(rules, ev, q) ==> q == p)
            && (r.status == OwnershipConflict
                <==> exists p, q :: p != q && TiedTo(rules, ev, p) && TiedTo(rules, ev, q))
  {
    var matched := Filter(rules, (r: OwnershipRule) => RuleMatches(r, ev));
    hide RuleMatches;
    forall r | r in matched ensures TiedTo(rules, ev, r.productId) {
    }
    if matched != [] {
      assert TiedTo(rules, ev, matched[0].productId) by { assert matched[0] in matched; }
      if !AllFor(matched, matched[0].productId) {
        var r :| r in matched && r.productId != matched[0].productId;
        assert TiedTo(rules, ev, r.productId);
      }
    }
  }

  /** The reported rules are exactly the enabled ones that match, in ascending order of id. */
  lemma {:induction false} OwnershipRulesAre(rules: seq<OwnershipRule>, ev: VerifiedEvidence, id: string)
    ensures id in MatchProductOwnership(rules, ev).ruleIds
            <==> exists r :: r in rules && r.id == id && RuleMatches(r, ev)
    ensures SortedBy(MatchProductOwnership(rules, ev).ruleIds, AtMost)
  {
    hide RuleMatches, Filter, Map, SortBy, AtMost, SortedBy, TotalPreorder;
    var matched := Filter(rules, (r: OwnershipRule) => RuleMatches(r, ev));
    var ids := Map(matched, (r: OwnershipRule) => r.id);
    MapMembers(matched, (r: OwnershipRule) => r.id);
    SameMembers(SortIds(ids), ids);
    AtMostIsTotal();
    SortSorts(ids, AtMost);
  }

  lemma {:induction false} OwnershipIsReordered(rules: seq<OwnershipRule>, rules': seq<OwnershipRule>,
                                                ev: VerifiedEvidence)
    requires multiset(rules) == multiset(rules')
    ensures MatchProductOwnership(rules, ev) == MatchProductOwnership(rules', ev)
  {
    var test := (r: OwnershipRule) => RuleMatches(r, ev);
    FilterPermutes(rules, rules', test);
    var matched, matched' := Filter(rules, test), Filter(rules', test);
    SameMembers(matched, matched');
    MapPermutes(matched, matched', (r: OwnershipRule) => r.id);
    SortIdsPermutes(Map(matched, (r: OwnershipRule) => r.id), Map(matched', (r: OwnershipRule) => r.id));
    if matched != [] {
      assert matched[0] in matched' && matched'[0] in matched;
    }
    hide RuleMatches, SortIds;
  }
}

/** The draft that turns a catalogue with selectors (schemas 1 to 3) into ownership rules. */
module LegacyConversion {
  import opened Wrappers
  import opened Sequences
  import opened Text
  import opened Ordering
  import opened Evidence
  import opened Catalog
  import opened EditingFacts
  import opened Ownership

  datatype DraftError = IncompleteCatalog | ProductWithoutSelectors

  datatype Unconverted = Unconverted(productId: string, selectorIndex: nat, selector: Selector)

  datatype Draft = Draft(ownershipRules: seq<OwnershipRule>, unconverted: seq<Unconverted>)

  // ----- text shapes

  predicate IsHexDigit(c: char) { 'a' <= c <= 'f' || '0' <= c <= '9' }

  predicate IsHash(s: string) { |s| == 64 && forall c :: c in s ==> IsHexDigit(c) }

  /** Neither `!`, white space nor a control character. */
  predicate AumidChar(c: char) {
    var n := c as int;
    c != '!' && n > 0x20 && n != 0x7F && n != 0xA0 && n != 0x1680 && !(0x2000 <= n <= 0x200A)
    && n != 0x2028 && n != 0x2029 && n != 0x202F && n != 0x205F && n != 0x3000 && n != 0xFEFF
  }

  /** Two nonempty parts joined by a single `!`. */
  predicate IsAumid(s: string) {
    && |s| <= 256
    && exists i :: 0 < i < |s| - 1 && s[i] == '!' && forall j :: 0 <= j < |s| && j != i ==> AumidChar(s[j])
  }

  // ----- one selector

  function Convert(s: Selector): Option<OwnershipMatch> {
    if s.match_.operator == Unsupported || |s.match_.conditions| != 1 then None
    else
      var c := s.match_.conditions[0];
      if c.value.None? then None
      else if c.field == BinaryHash && IsHash(c.value.value) then Some(BinaryHashIs(c.value.value))
      else if s.platform == Windows && c.field == FileSeriesKey
          && IsHash(c.value.value) then Some(FileSeriesIs(c.value.value))
      else if s.platform == Windows && c.field == PackageId && IsAumid(c.value.value) then Some(AumidIs(c.value.value))
      else None
  }

  function Digits(n: nat): string {
    if n < 10 then [('0' as int + n) as char] else Digits(n / 10) + [('0' as int + n % 10) as char]
  }

  function RuleId(productIndex: nat, selectorIndex: nat): string {
    "legacy-" + Digits(productIndex) + "-" + Digits(selectorIndex)
  }

  // ----- the whole catalogue

  function RuleFor(i: nat, j: nat, productId: string, s: Selector): OwnershipRule
    requires Convert(s).Some?
  {
    OwnershipRule(RuleId(i, j), 1, true, s.platform, productId, Convert(s).value)
  }

  /** The draft after the first `n` selectors of product `i`. */
  function DraftSelectors(i: nat, p: Product, n: nat): Draft
    requires n <= |p.selectors|
  {
    if n == 0 then Draft([], [])
    else
      var d := DraftSelectors(i, p, n - 1);
      var s := p.selectors[n - 1];
      if Convert(s).Some? then d.(ownershipRules := d.ownershipRules + [RuleFor(i, n - 1, p.id, s)])
      else d.(unconverted := d.unconverted + [Unconverted(p.id, n - 1, s)])
  }

  /** The draft after the first `n` products. */
  function DraftProducts(products: seq<Product>, n: nat): Draft
    requires n <= |products|
  {
    if n == 0 then Draft([], [])
    else
      var d := DraftProducts(products, n - 1);
      var e := DraftSelectors(n - 1, products[n - 1], |products[n - 1].selectors|);
      Draft(d.ownershipRules + e.ownershipRules, d.unconverted + e.unconverted)
  }

  predicate Convertible(k: Knowledge) { k.schemaVersion in {1, 2, 3} }

  predicate SelectorsPresent(products: seq<Product>) {
    forall p :: p in products ==> p.selectors != []
  }

  method LegacyOwnershipDraft(legacy: Knowledge) returns (r: Result<Draft, DraftError>)
    ensures r.Success? <==> Convertible(legacy) && SelectorsPresent(legacy.products)
    ensures r.Success? ==> r.value == DraftProducts(legacy.products, |legacy.products|)
    ensures r.Failure? ==> r.error == if Convertible(legacy) then ProductWithoutSelectors else IncompleteCatalog
  {
    if !Convertible(legacy) {
      return Failure(IncompleteCatalog);
    }
    var rules: seq<OwnershipRule> := [];
    var unconverted: seq<Unconverted> := [];
    var products := legacy.products;
    for i := 0 to |products|
      invariant Draft(rules, unconverted) == DraftProducts(products, i)
      invariant forall j :: 0 <= j < i ==> products[j].selectors != []
    {
      var p := products[i];
      if p.selectors == [] {
        assert p in products;
        return Failure(ProductWithoutSelectors);
      }
      ghost var before := DraftProducts(products, i);
      for j := 0 to |p.selectors|
        invariant rules == before.ownershipRules + DraftSelectors(i, p, j).ownershipRules
        invariant unconverted == before.unconverted + DraftSelectors(i, p, j).unconverted
      {
        var s := p.selectors[j];
        var converted := Convert(s);
        if converted.Some? {
          rules := rules + [OwnershipRule(RuleId(i, j), 1, true, s.platform, p.id, converted.value)];
        } else {
          unconverted := unconverted + [Unconverted(p.id, j, s)];
        }
      }
    }
    return Success(Draft(rules, unconverted));
  }

  // ----- where every selector goes

  /** The rules are exactly the converted selectors of the first `n` products. */
  lemma {:induction false} RulesAre(products: seq<Product>, n: nat)
    requires n <= |products|
    ensures forall r :: r in DraftProducts(products, n).ownershipRules
                        <==> exists i, j :: 0 <= i < n && 0 <= j < |products[i].selectors|
                                            && Convert(products[i].selectors[j]).Some?
                                            && r == RuleFor(i, j, products[i].id, products[i].selectors[j])
  {
    if n > 0 {
      var p := products[n - 1];
      RulesAre(products, n - 1);
      hide Convert, RuleFor, DraftSelectors;
      RulesOfSelectors(n - 1, p, |p.selectors|);
    }
  }

  lemma {:induction false} RulesOfSelectors(i: nat, p: Product, n: nat)
    requires n <= |p.selectors|
    ensures forall r :: r in DraftSelectors(i, p, n).ownershipRules
                        <==> exists j :: 0 <= j < n && Convert(p.selectors[j]).Some?
                                 && r == RuleFor(i, j, p.id, p.selectors[j])
  {
    if n > 0 {
      RulesOfSelectors(i, p, n - 1);
      hide Convert, RuleFor;
    }
  }

  /** The rest is exactly the selectors that could not be converted. */
  lemma {:induction false} UnconvertedAre(products: seq<Product>, n: nat)
    requires n <= |products|
    ensures forall u :: u in DraftProducts(products, n).unconverted
                        <==> exists i, j :: 0 <= i < n && 0 <= j < |products[i].selectors|
                                            && Convert(products[i].selectors[j]).None?
                                            && u == Unconverted(products[i].id, j, products[i].selectors[j])
  {
    if n > 0 {
      var p := products[n - 1];
      UnconvertedAre(products, n - 1);
      hide Convert, RuleFor, DraftSelectors;
      UnconvertedOfSelectors(n - 1, p, |p.selectors|);
    }
  }

  lemma {:induction false} UnconvertedOfSelectors(i: nat, p: Product, n: nat)
    requires n <= |p.selectors|
    ensures forall u :: u in DraftSelectors(i, p, n).unconverted
                        <==> exists j :: 0 <= j < n && Convert(p.selectors[j]).None?
                                 && u == Unconverted(p.id, j, p.selectors[j])
  {
    if n > 0 {
      UnconvertedOfSelectors(i, p, n - 1);
      hide Convert, RuleFor;
    }
  }

  // ----- which selectors become rules

  /** 64 lower-case hexadecimal digits. */
  lemma {:induction false} HashShapeIs(s: string)
    ensures IsHash(s) <==> |s| == 64 && forall i :: 0 <= i < |s| ==> s[i] in "0123456789abcdef"
  {
    forall c ensures IsHexDigit(c) <==> c in "0123456789abcdef" {
      HexDigitIs(c);
    }
    hide IsHexDigit;
  }

  lemma {:induction false} HexDigitIs(c: char)
    ensures IsHexDigit(c) <==> c in "0123456789abcdef"
  {
    var digits := "0123456789abcdef";
    if '0' <= c <= '9' {
      assert digits[c as int - '0' as int] == c;
    } else if 'a' <= c <= 'f' {
      assert digits[10 + c as int - 'a' as int] == c;
    }
  }

  predicate IsControl(c: char) { c as int <= 0x1F || c as int == 0x7F }

  predicate AumidPart(s: string) { s != "" && forall c :: c in s ==> c != '!' && !IsSpace(c) && !IsControl(c) }

  lemma {:induction false} AumidCharIs(c: char)
    ensures AumidChar(c) <==> c != '!' && !IsSpace(c) && !IsControl(c)
  {
  }

  lemma {:induction false} AumidSplits(s: string, i: nat)
    requires 0 < i < |s| - 1 && s[i] == '!' && forall j :: 0 <= j < |s| && j != i ==> AumidChar(s[j])
    ensures s == s[..i] + "!" + s[i + 1..] && AumidPart(s[..i]) && AumidPart(s[i + 1..])
  {
    hide AumidChar, IsSpace, IsControl;
    forall c ensures AumidChar(c) <==> c != '!' && !IsSpace(c) && !IsControl(c) {
      AumidCharIs(c);
    }
  }

  lemma {:induction false} AumidJoins(left: string, right: string)
    requires AumidPart(left) && AumidPart(right)
    ensures var s, i := left + "!" + right, |left|;
            0 < i < |s| - 1 && s[i] == '!' && forall j :: 0 <= j < |s| && j != i ==> AumidChar(s[j])
  {
    hide AumidChar, IsSpace, IsControl;
    var s, i := left + "!" + right, |left|;
    forall c ensures AumidChar(c) <==> c != '!' && !IsSpace(c) && !IsControl(c) {
      AumidCharIs(c);
    }
    assert forall j :: 0 <= j < i ==> s[j] == left[j] && left[j] in left;
    assert forall j :: i < j < |s| ==> s[j] == right[j - i - 1] && right[j - i - 1] in right;
  }

  /** Two parts joined by `!`, neither with a space or a control character. */
  lemma {:induction false} AumidShapeIs(s: string)
    ensures IsAumid(s)
            <==> |s| <= 256 && exists left, right :: s == left + "!" + right && AumidPart(left) && AumidPart(right)
  {
    hide AumidChar, AumidPart;
    if IsAumid(s) {
      var i :| 0 < i < |s| - 1 && s[i] == '!' && forall j :: 0 <= j < |s| && j != i ==> AumidChar(s[j]);
      AumidSplits(s, i);
    }
    forall left, right | |s| <= 256 && s == left + "!" + right && AumidPart(left) && AumidPart(right)
      ensures IsAumid(s)
    {
      AumidJoins(left, right);
    }
  }

  /** The selector asks for exactly this one value of this one field. */
  predicate AsksOnly(s: Selector, f: Field, value: string) {
    s.match_.operator in {All, Any} && s.match_.conditions == [Condition(f, Some(value))]
  }

  /** The selector has a rule of its own, with this match. */
  ghost predicate HasRule(s: Selector, m: OwnershipMatch) {
    match m
    case BinaryHashIs(value) => AsksOnly(s, BinaryHash, value) && IsHash(value)
    case FileSeriesIs(value) => AsksOnly(s, FileSeriesKey, value) && IsHash(value) && s.platform == Windows
    case AumidIs(value) => AsksOnly(s, PackageId, value) && IsAumid(value) && s.platform == Windows
    case SignatureIs(_, _) => false
  }

  lemma {:induction false} ConvertIs(s: Selector, m: OwnershipMatch)
    ensures Convert(s) == Some(m) <==> HasRule(s, m)
  {
    hide IsHash, IsAumid;
    if |s.match_.conditions| == 1 {
      var c := s.match_.conditions[0];
      assert s.match_.conditions == [c];
    }
  }

  ghost predicate RuleAt(products: seq<Product>, i: int, j: int, m: OwnershipMatch, r: OwnershipRule) {
    && 0 <= i < |products| && 0 <= j < |products[i].selectors| && HasRule(products[i].selectors[j], m)
    && r == OwnershipRule(RuleId(i, j), 1, true, products[i].selectors[j].platform, products[i].id, m)
  }

  /** The drafted rules are exactly these: for every selector that asks for one hash, one file series or one
      package id, an enabled rule of its product and platform that asks for the same. */
  lemma {:induction false} DraftedRulesAre(products: seq<Product>, r: OwnershipRule)
    ensures r in DraftProducts(products, |products|).ownershipRules <==> exists i, j, m :: RuleAt(products, i, j, m, r)
  {
    hide DraftProducts, Convert, HasRule, RuleId;
    RulesAre(products, |products|);
    if r in DraftProducts(products, |products|).ownershipRules {
      var i, j :| 0 <= i < |products| && 0 <= j < |products[i].selectors| && Convert(products[i].selectors[j]).Some?
                  && r == RuleFor(i, j, products[i].id, products[i].selectors[j]);
      ConvertIs(products[i].selectors[j], r.match_);
      assert RuleAt(products, i, j, r.match_, r);
    }
    forall i, j, m | RuleAt(products, i, j, m, r) ensures r in DraftProducts(products, |products|).ownershipRules {
      ConvertIs(products[i].selectors[j], m);
      assert r == RuleFor(i, j, products[i].id, products[i].selectors[j]);
    }
  }

  ghost predicate LeftAt(products: seq<Product>, i: int, j: int, u: Unconverted) {
    && 0 <= i < |products| && 0 <= j < |products[i].selectors| && (forall m :: !HasRule(products[i].selectors[j], m))
    && u == Unconverted(products[i].id, j, products[i].selectors[j])
  }

  /** And every other selector is left over, at its place. */
  lemma {:induction false} LeftoversAre(products: seq<Product>, u: Unconverted)
    ensures u in DraftProducts(products, |products|).unconverted <==> exists i, j :: LeftAt(products, i, j, u)
  {
    hide DraftProducts, Convert, HasRule;
    UnconvertedAre(products, |products|);
    forall s: Selector ensures Convert(s).None? <==> forall m :: !HasRule(s, m) {
      if Convert(s).Some? {
        ConvertIs(s, Convert(s).value);
      }
      forall m | HasRule(s, m) ensures Convert(s).Some? {
        ConvertIs(s, m);
      }
    }
    if u in DraftProducts(products, |products|).unconverted {
      var i, j :| 0 <= i < |products| && 0 <= j < |products[i].selectors| && Convert(products[i].selectors[j]).None?
                  && u == Unconverted(products[i].id, j, products[i].selectors[j]);
      assert LeftAt(products, i, j, u);
    }
  }

  function SelectorCount(products: seq<Product>, n: nat): nat
    requires n <= |products|
  {
    if n == 0 then 0 else SelectorCount(products, n - 1) + |products[n - 1].selectors|
  }

  lemma {:induction false} SelectorsSplit(i: nat, p: Product, n: nat)
    requires n <= |p.selectors|
    ensures |DraftSelectors(i, p, n).ownershipRules| + |DraftSelectors(i, p, n).unconverted| == n
  {
    if n > 0 {
      SelectorsSplit(i, p, n - 1);
    }
  }

  /** Every selector lands in exactly one of the two lists: together they are as many as the selectors. */
  lemma {:induction false} NothingIsLost(products: seq<Product>, n: nat)
    requires n <= |products|
    ensures |DraftProducts(products, n).ownershipRules| + |DraftProducts(products, n).unconverted|
            == SelectorCount(products, n)
  {
    if n > 0 {
      NothingIsLost(products, n - 1);
      SelectorsSplit(n - 1, products[n - 1], |products[n - 1].selectors|);
    }
  }

  // ----- rule ids

  /** The number that the digits write. */
  function Number(s: string): int {
    if s == "" then 0 else 10 * Number(s[..|s| - 1]) + (s[|s| - 1] as int - '0' as int)
  }

  /** A decimal numeral without needless zeros. */
  predicate Decimal(s: string) { s != "" && (forall c :: c in s ==> '0' <= c <= '9') && (|s| > 1 ==> s[0] != '0') }

  lemma {:induction false} DigitsWrite(n: nat)
    ensures Decimal(Digits(n)) && Number(Digits(n)) == n && (n > 0 ==> Digits(n)[0] != '0')
  {
    if n >= 10 {
      DigitsWrite(n / 10);
      assert Digits(n)[..|Digits(n)| - 1] == Digits(n / 10);
    } else {
      assert Digits(n)[..0] == "";
    }
  }

  /** The id of a drafted rule names the places of its product and its selector in decimal numbers. */
  lemma {:induction false} RuleIdNames(i: nat, j: nat)
    ensures exists a, b :: RuleId(i, j) == "legacy-" + a + "-" + b && Decimal(a) && Decimal(b) && Number(a) == i
                && Number(b) == j
  {
    DigitsWrite(i);
    DigitsWrite(j);
    assert RuleId(i, j) == "legacy-" + Digits(i) + "-" + Digits(j);
  }

  // ----- rule ids are distinct

  lemma {:induction false} DigitsAreDigits(n: nat)
    ensures Digits(n) != [] && forall c :: c in Digits(n) ==> '0' <= c <= '9'
  {
    if n >= 10 {
      DigitsAreDigits(n / 10);
    }
  }

  lemma {:induction false} DigitsInjective(m: nat, n: nat)
    requires Digits(m) == Digits(n)
    ensures m == n
  {
    DigitsAreDigits(m / 10);
    DigitsAreDigits(n / 10);
    if m >= 10 && n >= 10 {
      assert Digits(m)[..|Digits(m)| - 1] == Digits(m / 10);
      assert Digits(n)[..|Digits(n)| - 1] == Digits(n / 10);
      DigitsInjective(m / 10, n / 10);
    }
    assert Digits(m)[|Digits(m)| - 1] == ('0' as int + m % 10) as char;
    assert Digits(n)[|Digits(n)| - 1] == ('0' as int + n % 10) as char;
  }

  lemma {:induction false} SeparatedInjective(a: string, b: string, c: string, d: string)
    requires a + "-" + b == c + "-" + d
    requires '-' !in a && '-' !in c
    ensures a == c && b == d
  {
    var s := a + "-" + b;
    assert s[|a|] == '-';
    assert (c + "-" + d)[|c|] == '-';
    assert a == s[..|a|] && c == (c + "-" + d)[..|c|];
    assert b == s[|a| + 1..] && d == (c + "-" + d)[|c| + 1..];
  }

  lemma {:induction false} RuleIdInjective(i: nat, j: nat, i': nat, j': nat)
    requires RuleId(i, j) == RuleId(i', j')
    ensures i == i' && j == j'
  {
    DigitsAreDigits(i);
    DigitsAreDigits(i');
    assert RuleId(i, j)[7..] == Digits(i) + "-" + Digits(j);
    assert RuleId(i', j')[7..] == Digits(i') + "-" + Digits(j');
    SeparatedInjective(Digits(i), Digits(j), Digits(i'), Digits(j'));
    DigitsInjective(i, i');
    DigitsInjective(j, j');
  }

  function IdsOf(rules: seq<OwnershipRule>): seq<string> { Map(rules, (r: OwnershipRule) => r.id) }

  lemma {:induction false} SelectorRuleIdsDistinct(i: nat, p: Product, n: nat)
    requires n <= |p.selectors|
    ensures Distinct(IdsOf(DraftSelectors(i, p, n).ownershipRules))
    ensures forall id :: id in IdsOf(DraftSelectors(i, p, n).ownershipRules)
                ==> exists j: nat :: j < n && id == RuleId(i, j)
  {
    if n > 0 {
      SelectorRuleIdsDistinct(i, p, n - 1);
      var before := DraftSelectors(i, p, n - 1).ownershipRules;
      var s := p.selectors[n - 1];
      hide Convert, RuleId;
      if Convert(s).Some? {
        MapConcat(before, [RuleFor(i, n - 1, p.id, s)], (r: OwnershipRule) => r.id);
        forall id | id in IdsOf(before) ensures id != RuleId(i, n - 1) {
          var j: nat :| j < n - 1 && id == RuleId(i, j);
          if id == RuleId(i, n - 1) {
            RuleIdInjective(i, j, i, n - 1);
          }
        }
        DistinctConcat(IdsOf(before), [RuleId(i, n - 1)]);
        assert IdsOf(DraftSelectors(i, p, n).ownershipRules) == IdsOf(before) + [RuleId(i, n - 1)];
      }
    }
  }

  /** No two emitted rules share an id. */
  lemma {:induction false} RuleIdsDistinct(products: seq<Product>, n: nat)
    requires n <= |products|
    ensures Distinct(IdsOf(DraftProducts(products, n).ownershipRules))
    ensures forall id :: id in IdsOf(DraftProducts(products, n).ownershipRules)
                         ==> exists i: nat, j: nat :: i < n && id == RuleId(i, j)
  {
    hide RuleId, DraftSelectors, Distinct, Map, RuleFor;
    if n > 0 {
      RuleIdsDistinct(products, n - 1);
      var p := products[n - 1];
      SelectorRuleIdsDistinct(n - 1, p, |p.selectors|);
      var before, added := DraftProducts(products, n - 1).ownershipRules,
          DraftSelectors(n - 1, p, |p.selectors|).ownershipRules;
      MapConcat(before, added, (r: OwnershipRule) => r.id);
      forall id | id in IdsOf(before) ensures id !in IdsOf(added) {
        var i: nat, j: nat :| i < n - 1 && id == RuleId(i, j);
        if id in IdsOf(added) {
          var j': nat :| j' < |p.selectors| && id == RuleId(n - 1, j');
          RuleIdInjective(i, j, n - 1, j');
        }
      }
      DistinctConcat(IdsOf(before), IdsOf(added));
    } else {
      NoIds();
    }
  }

  lemma {:induction false} NoIds()
    ensures IdsOf([]) == [] && Distinct(IdsOf([]))
  {
  }

  // ----- the conversion preserves identification

  function VerifiedValue(ev: AppEvidence, f: Field): Option<string> {
    if f in ev.verifiedFields && f in ev.values then Some(ev.values[f]) else None
  }

  /** The verified part of a report, in the vocabulary of ownership rules. A Windows package id is
      its AUMID; legacy reports carry no macOS signing identifier. */
  function VerifiedPart(ev: AppEvidence): VerifiedEvidence {
    VerifiedEvidence(
      ev.platform,
      VerifiedValue(ev, BinaryHash),
      if ev.platform == Windows then VerifiedValue(ev, PackageId) else None,
      if ev.platform == Windows then VerifiedValue(ev, FileSeriesKey) else None,
      if ev.platform == MacOS then VerifiedValue(ev, SignerKey) else None,
      None)
  }

  lemma {:induction false} SingleCondition(e: Expression, c: Condition, ev: AppEvidence)
    requires e.conditions == [c] && e.operator != Unsupported
    ensures SafeAutomatic(e) <==> Strong(c.field)
    ensures Matches(e, ev, true) <==> ConditionMatches(c, ev, true)
  {
    hide ConditionMatches, Strong;
    assert c in e.conditions;
    assert forall x :: x in e.conditions <==> x == c;
  }

  /** A converted selector and its rule accept the same evidence. */
  lemma {:induction false} ConvertPreserves(i: nat, j: nat, productId: string, s: Selector, ev: AppEvidence)
    requires Convert(s).Some?
    ensures RuleMatches(RuleFor(i, j, productId, s), VerifiedPart(ev)) <==> SelectorIdentifies(s, ev)
  {
    hide IsHash, IsAumid, RuleId, SafeAutomatic, Matches;
    var c := s.match_.conditions[0];
    SingleCondition(s.match_, c, ev);
  }

  ghost predicate Rests(unconverted: seq<Unconverted>, ev: AppEvidence, productId: string) {
    exists u :: u in unconverted && u.productId == productId && SelectorIdentifies(u.selector, ev)
  }

  /** A selector at a place in the catalogue identifies the evidence as the product. */
  ghost predicate At(products: seq<Product>, i: int, j: int, ev: AppEvidence, productId: string) {
    0 <= i < |products| && 0 <= j < |products[i].selectors| && products[i].id == productId
    && SelectorIdentifies(products[i].selectors[j], ev)
  }

  lemma {:induction false} IdentifiedAt(products: seq<Product>, ev: AppEvidence, productId: string)
    ensures productId in IdentifyProducts(products, ev) <==> exists i, j :: At(products, i, j, ev, productId)
  {
    hide IdentifyProducts, SelectorIdentifies;
    IdentifiedAre(products, ev, productId);
    if productId in IdentifyProducts(products, ev) {
      var p :| p in products && p.id == productId && Identifies(p, ev);
      var i :| 0 <= i < |products| && products[i] == p;
      var s :| s in p.selectors && SelectorIdentifies(s, ev);
      var j :| 0 <= j < |p.selectors| && p.selectors[j] == s;
      assert At(products, i, j, ev, productId);
    }
    if exists i, j :: At(products, i, j, ev, productId) {
      var i, j :| At(products, i, j, ev, productId);
      assert products[i] in products && products[i].selectors[j] in products[i].selectors;
    }
  }

  ghost predicate ConvertedAt(products: seq<Product>, i: int, j: int) {
    0 <= i < |products| && 0 <= j < |products[i].selectors| && Convert(products[i].selectors[j]).Some?
  }

  lemma {:induction false} TiedHasPlace(products: seq<Product>, ev: AppEvidence, productId: string)
    requires TiedTo(DraftProducts(products, |products|).ownershipRules, VerifiedPart(ev), productId)
    ensures exists i, j :: At(products, i, j, ev, productId) && ConvertedAt(products, i, j)
  {
    RulesAre(products, |products|);
    var rules := DraftProducts(products, |products|).ownershipRules;
    hide DraftProducts, Convert, SelectorIdentifies, VerifiedPart, RuleMatches;
    var r :| r in rules && r.productId == productId && RuleMatches(r, VerifiedPart(ev));
    var i, j :| 0 <= i < |products| && 0 <= j < |products[i].selectors| && Convert(products[i].selectors[j]).Some?
                && r == RuleFor(i, j, products[i].id, products[i].selectors[j]);
    ConvertPreserves(i, j, products[i].id, products[i].selectors[j], ev);
    assert At(products, i, j, ev, productId) && ConvertedAt(products, i, j);
  }

  lemma {:induction false} PlaceIsTied(products: seq<Product>, ev: AppEvidence, productId: string, i: int, j: int)
    requires At(products, i, j, ev, productId) && ConvertedAt(products, i, j)
    ensures TiedTo(DraftProducts(products, |products|).ownershipRules, VerifiedPart(ev), productId)
  {
    RulesAre(products, |products|);
    hide DraftProducts, Convert, SelectorIdentifies, VerifiedPart, RuleMatches;
    ConvertPreserves(i, j, products[i].id, products[i].selectors[j], ev);
    assert RuleFor(i, j, products[i].id, products[i].selectors[j])
           in DraftProducts(products, |products|).ownershipRules;
  }

  lemma {:induction false} RestHasPlace(products: seq<Product>, ev: AppEvidence, productId: string)
    requires Rests(DraftProducts(products, |products|).unconverted, ev, productId)
    ensures exists i, j :: At(products, i, j, ev, productId)
  {
    UnconvertedAre(products, |products|);
    var rest := DraftProducts(products, |products|).unconverted;
    hide DraftProducts, Convert, SelectorIdentifies;
    var u :| u in rest && u.productId == productId && SelectorIdentifies(u.selector, ev);
    var i, j :| 0 <= i < |products| && 0 <= j < |products[i].selectors| && Convert(products[i].selectors[j]).None?
                && u == Unconverted(products[i].id, j, products[i].selectors[j]);
    assert At(products, i, j, ev, productId);
  }

  lemma {:induction false} PlaceRests(products: seq<Product>, ev: AppEvidence, productId: string, i: int, j: int)
    requires At(products, i, j, ev, productId) && !ConvertedAt(products, i, j)
    ensures Rests(DraftProducts(products, |products|).unconverted, ev, productId)
  {
    UnconvertedAre(products, |products|);
    hide DraftProducts, Convert, SelectorIdentifies;
    assert Unconverted(products[i].id, j, products[i].selectors[j]) in DraftProducts(products, |products|).unconverted;
  }

  /** For all evidence the legacy catalogue identifies a product exactly when a drafted rule ties the
      verified part of the evidence to it, or one of its unconverted selectors identifies it. */
  lemma {:induction false} DraftPreservesIdentification(products: seq<Product>, ev: AppEvidence, productId: string)
    ensures var d := DraftProducts(products, |products|);
            productId in IdentifyProducts(products, ev)
            <==> TiedTo(d.ownershipRules, VerifiedPart(ev), productId) || Rests(d.unconverted, ev, productId)
  {
    hide DraftProducts, ConvertedAt, At, IdentifyProducts, TiedTo, Rests;
    var d := DraftProducts(products, |products|);
    IdentifiedAt(products, ev, productId);
    if productId in IdentifyProducts(products, ev) {
      var i, j :| At(products, i, j, ev, productId);
      if ConvertedAt(products, i, j) {
        PlaceIsTied(products, ev, productId, i, j);
      } else {
        PlaceRests(products, ev, productId, i, j);
      }
    }
    if TiedTo(d.ownershipRules, VerifiedPart(ev), productId) {
      TiedHasPlace(products, ev, productId);
    }
    if Rests(d.unconverted, ev, productId) {
      RestHasPlace(products, ev, productId);
    }
  }

  lemma {:induction false} NoRests(ev: AppEvidence)
    ensures forall productId :: !Rests([], ev, productId)
  {
  }

  /** When everything could be converted, the drafted rules own, leave open or dispute exactly the
      evidence that the legacy catalogue identified as one, no or several products. */
  lemma {:induction false} FullConversionAgrees(products: seq<Product>, ev: AppEvidence)
    requires Distinct(ProductIds(products)) && DraftProducts(products, |products|).unconverted == []
    ensures var identified := IdentifyProducts(products, ev);
            var r := MatchProductOwnership(DraftProducts(products, |products|).ownershipRules, VerifiedPart(ev));
            && (r.status == Owned <==> |identified| == 1)
            && (r.status == Unowned <==> |identified| == 0)
            && (r.status == OwnershipConflict <==> |identified| > 1)
            && (|identified| == 1 ==> r.productId == Some(identified[0]))
  {
    hide DraftProducts, IdentifyProducts, TiedTo, MatchProductOwnership, VerifiedPart, SortedBy, Rests, Map;
    var identified := IdentifyProducts(products, ev);
    var rules := DraftProducts(products, |products|).ownershipRules;
    var verified := VerifiedPart(ev);
    IdentifiedOnce(products, ev);
    OwnershipIs(rules, verified);
    NoRests(ev);
    forall p ensures p in identified <==> TiedTo(rules, verified, p) {
      DraftPreservesIdentification(products, ev, p);
    }
    if |identified| == 1 {
      assert identified[0] in identified;
      assert forall q :: q in identified ==> q == identified[0];
    } else if |identified| > 1 {
      assert identified[0] in identified && identified[1] in identified;
      assert identified[0] != identified[1];
    } else {
      assert forall p :: p !in identified;
    }
  }
}
