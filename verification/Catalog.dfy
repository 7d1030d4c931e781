/** The family's catalogue of products, rules and per-child choices. */
module Catalog {
  import opened Wrappers
  import opened Sequences
  import opened Ordering
  import opened Evidence

  datatype AppType =
    | Game | GameLauncher | GameUtility | OnlineVideo | MediaPlayer | OtherType | UnknownType

  datatype AppClass =
    | Study | Composite | RestrictedEntertainment | Unclassified | OtherTime | Blocked

  datatype Product = Product(id: string, name: string, type_: AppType, selectors: seq<Selector>)

  datatype RuleKind = ProductKind | FamilyKind | DeveloperKind | TypeKind

  datatype RuleMode = Automatic | Suggestion

  datatype Rule = Rule(
    id: string,
    kind: RuleKind,
    platform: Option<Platform>,
    productId: Option<string>,
    match_: Expression,
    exclude: seq<Expression>,
    mode: RuleMode,
    classification: AppClass,
    type_: AppType,
    enabled: bool)
  {
    /** An empty product id counts as no product id. */
    predicate Targeted() { productId.Some? && productId.value != "" }

    predicate AboutPlatform(p: Platform) { platform.None? || platform.value == p }
  }

  datatype Choice = Choice(productId: string, classification: AppClass, enhancedBlocking: bool)

  datatype Binding = Binding(childId: string, products: seq<Choice>, ruleIds: seq<string>)

  datatype Knowledge = Knowledge(
    schemaVersion: nat,
    version: nat,
    products: seq<Product>,
    rules: seq<Rule>,
    bindings: seq<Binding>)

  function Rank(kind: RuleKind): nat {
    match kind
    case ProductKind => 0
    case FamilyKind => 1
    case DeveloperKind => 1
    case TypeKind => 2
  }

  // ----- lookups

  function FindProduct(products: seq<Product>, id: string): (r: Option<Product>) {
    Find(products, (p: Product) => p.id == id)
  }

  function FindRule(rules: seq<Rule>, id: string): (r: Option<Rule>) {
    Find(rules, (rule: Rule) => rule.id == id)
  }

  function FindBinding(bindings: seq<Binding>, childId: string): (r: Option<Binding>) {
    Find(bindings, (b: Binding) => b.childId == childId)
  }

  function FindChoice(choices: seq<Choice>, productId: string): (r: Option<Choice>) {
    Find(choices, (c: Choice) => c.productId == productId)
  }

  /** The choice a child made for a product, if any. */
  function ChoiceFor(bindings: seq<Binding>, childId: string, productId: string): Option<Choice> {
    match FindBinding(bindings, childId)
    case None => None
    case Some(b) => FindChoice(b.products, productId)
  }

  /** The rules a child's guardian approved. */
  function ApprovedBy(bindings: seq<Binding>, childId: string): set<string> {
    match FindBinding(bindings, childId)
    case None => {}
    case Some(b) => set id | id in b.ruleIds
  }

  // ----- what a published catalogue guarantees

  function ProductIds(products: seq<Product>): seq<string> { Map(products, (p: Product) => p.id) }

  function RuleIds(rules: seq<Rule>): seq<string> { Map(rules, (r: Rule) => r.id) }

  function ChildIds(bindings: seq<Binding>): seq<string> {
    Map(bindings, (b: Binding) => b.childId)
  }

  function ChosenProducts(choices: seq<Choice>): seq<string> {
    Map(choices, (c: Choice) => c.productId)
  }

  ghost predicate ValidProduct(p: Product) {
    p.id != "" && p.selectors != [] && forall s :: s in p.selectors ==> SafeAutomatic(s.match_)
  }

  function IdSet(products: seq<Product>): set<string> { set p | p in products :: p.id }

  function RuleIdSet(rules: seq<Rule>): set<string> { set r | r in rules :: r.id }

  ghost predicate ValidRule(r: Rule, productIds: set<string>) {
    r.id != "" && (r.productId.Some? ==> r.productId.value in productIds)
  }

  ghost predicate ValidChoice(c: Choice, productIds: set<string>) {
    c.productId in productIds && (c.enhancedBlocking ==> c.classification == Blocked)
  }

  ghost predicate ValidBinding(b: Binding, productIds: set<string>, ruleIds: set<string>) {
    && (forall c :: c in b.products ==> ValidChoice(c, productIds))
    && (forall id :: id in b.ruleIds ==> id in ruleIds)
    && Distinct(ChosenProducts(b.products))
    && Distinct(b.ruleIds)
  }

  ghost predicate ValidProducts(products: seq<Product>) {
    (forall p :: p in products ==> ValidProduct(p)) && Distinct(ProductIds(products))
  }

  ghost predicate ValidRules(rules: seq<Rule>, productIds: set<string>) {
    (forall r :: r in rules ==> ValidRule(r, productIds)) && Distinct(RuleIds(rules))
  }

  ghost predicate ValidBindings(bindings: seq<Binding>, productIds: set<string>, ruleIds: set<string>) {
    (forall b :: b in bindings ==> ValidBinding(b, productIds, ruleIds)) && Distinct(ChildIds(bindings))
  }

  /** The identity and reference constraints the server checks before it accepts a catalogue. */
  ghost predicate WellFormed(k: Knowledge) {
    && ValidProducts(k.products)
    && ValidRules(k.rules, IdSet(k.products))
    && ValidBindings(k.bindings, IdSet(k.products), RuleIdSet(k.rules))
  }

  // ----- identification

  predicate Identifies(p: Product, ev: AppEvidence) {
    exists s :: s in p.selectors && SelectorIdentifies(s, ev)
  }

  function IdentifyProducts(products: seq<Product>, ev: AppEvidence): seq<string> {
    SortIds(ProductIds(Filter(products, (p: Product) => Identifies(p, ev))))
  }

  lemma IdentifiedAre(products: seq<Product>, ev: AppEvidence, id: string)
    ensures id in IdentifyProducts(products, ev)
            <==> exists p :: p in products && p.id == id && Identifies(p, ev)
  {
    var found := Filter(products, (p: Product) => Identifies(p, ev));
    SameMembers(IdentifyProducts(products, ev), ProductIds(found));
    MapMembers(found, (p: Product) => p.id);
  }

  datatype TypeStatus = ConfirmedType | UnconfirmedType

  datatype TypeReason = DistributionProductRule | ExactPackageRule | VerifiedProductRule | NoReason

  datatype TypeInfo = TypeInfo(appType: AppType, status: TypeStatus, reason: TypeReason)

  function SelectorReason(s: Selector): TypeReason {
    if exists c :: c in s.match_.conditions && c.field == DistributionKey then DistributionProductRule
    else if exists c :: c in s.match_.conditions && c.field == PackageId then ExactPackageRule
    else VerifiedProductRule
  }

  /** The first selector that identifies the evidence gives the reason. */
  function ReasonFor(p: Product, ev: AppEvidence): TypeReason {
    match Find(p.selectors, (s: Selector) => SelectorIdentifies(s, ev))
    case None => VerifiedProductRule
    case Some(s) => SelectorReason(s)
  }

  const UNKNOWN_TYPE := TypeInfo(UnknownType, UnconfirmedType, NoReason)

  function ResolveProductType(products: seq<Product>, ev: AppEvidence): TypeInfo {
    var identified := IdentifyProducts(products, ev);
    if |identified| != 1 then UNKNOWN_TYPE
    else
      match FindProduct(products, identified[0])
      case None => UNKNOWN_TYPE
      case Some(p) =>
        if p.type_ == UnknownType then UNKNOWN_TYPE
        else TypeInfo(p.type_, ConfirmedType, ReasonFor(p, ev))
  }

  // ----- resolution for one child

  datatype Status = Explicit | AutomaticStatus | SuggestionStatus | Conflict | NotClassified

  datatype Resolution = Resolution(
    productId: Option<string>,
    classification: AppClass,
    status: Status,
    ruleIds: seq<string>,
    suggestions: seq<string>,
    typeInfo: TypeInfo)

  /** A type rule without conditions is decided by the type of the identified product. */
  predicate DecidesByType(schemaVersion: nat, r: Rule) {
    schemaVersion >= 2 && r.kind == TypeKind && r.match_.conditions == []
  }

  predicate IsCandidate(schemaVersion: nat, approved: set<string>, productId: Option<string>,
                        t: TypeInfo, ev: AppEvidence, r: Rule) {
    && r.enabled
    && r.id in approved
    && r.AboutPlatform(ev.platform)
    && (r.Targeted() ==> r.productId == productId)
    && (if DecidesByType(schemaVersion, r) then t.status == ConfirmedType && t.appType == r.type_
        else if r.Targeted() && r.match_.conditions == [] then true
        else Matches(r.match_, ev, r.mode == Automatic))
    && !exists e :: e in r.exclude && Matches(e, ev, false)
  }

  predicate DecidesAutomatically(schemaVersion: nat, productId: Option<string>, t: TypeInfo, r: Rule) {
    && r.mode == Automatic
    && (if DecidesByType(schemaVersion, r) then t.status == ConfirmedType && t.appType != UnknownType
        else if r.Targeted() then productId.Some?
        else SafeAutomatic(r.match_))
  }

  predicate RuleOrder(a: Rule, b: Rule) {
    Rank(a.kind) < Rank(b.kind) || (Rank(a.kind) == Rank(b.kind) && AtMost(a.id, b.id))
  }

  predicate Disagree(rules: seq<Rule>) {
    exists i, j :: 0 <= i < |rules| && 0 <= j < |rules|
                   && rules[i].classification != rules[j].classification
  }

  function OfRank(rules: seq<Rule>, n: nat): seq<Rule> {
    Filter(rules, (r: Rule) => Rank(r.kind) == n)
  }

  /** The automatic rules of the strongest kind, in the order they are reported. */
  function BestRules(automatic: seq<Rule>): (best: seq<Rule>) {
    var sorted := SortBy(automatic, RuleOrder);
    if sorted == [] then [] else OfRank(sorted, Rank(sorted[0].kind))
  }

  function Suggestions(candidates: seq<Rule>): seq<string> {
    SortIds(RuleIds(Filter(candidates, (r: Rule) => r.mode == Suggestion)))
  }

  function AutomaticRules(candidates: seq<Rule>, schemaVersion: nat, productId: Option<string>,
                          t: TypeInfo): seq<Rule> {
    Filter(candidates, (r: Rule) => DecidesAutomatically(schemaVersion, productId, t, r))
  }

  function DecideByRules(candidates: seq<Rule>, schemaVersion: nat, productId: Option<string>,
                         t: TypeInfo, previous: AppClass): Resolution {
    var suggestions := Suggestions(candidates);
    var best := BestRules(AutomaticRules(candidates, schemaVersion, productId, t));
    if best != [] then
      if Disagree(best) then
        Resolution(productId, previous, Conflict, RuleIds(best), suggestions, t)
      else
        Resolution(productId, best[0].classification, AutomaticStatus, RuleIds(best), suggestions, t)
    else if suggestions != [] then
      Resolution(productId, previous, SuggestionStatus, [], suggestions, t)
    else
      Resolution(productId, Unclassified, NotClassified, [], suggestions, t)
  }

  /** What the catalogue says about one piece of evidence and one child, before any rule is read. */
  datatype Facts = Facts(
    identified: seq<string>,
    typeInfo: TypeInfo,
    choice: Option<Choice>,
    approved: set<string>)
  {
    /** Only a single identified product counts as an identity. */
    function ProductId(): Option<string> {
      if |identified| == 1 then Some(identified[0]) else None
    }
  }

  function FactsFor(k: Knowledge, childId: string, ev: AppEvidence): Facts {
    var identified := IdentifyProducts(k.products, ev);
    Facts(identified,
          ResolveProductType(k.products, ev),
          if |identified| == 1 then ChoiceFor(k.bindings, childId, identified[0]) else None,
          ApprovedBy(k.bindings, childId))
  }

  function Candidates(rules: seq<Rule>, schemaVersion: nat, f: Facts, ev: AppEvidence): seq<Rule> {
    Filter(rules, (r: Rule) => IsCandidate(schemaVersion, f.approved, f.ProductId(), f.typeInfo, ev, r))
  }

  function ResolveFacts(rules: seq<Rule>, schemaVersion: nat, f: Facts, ev: AppEvidence,
                        previous: AppClass): Resolution {
    if |f.identified| > 1 then Resolution(None, previous, Conflict, [], [], f.typeInfo)
    else if f.choice.Some? then
      Resolution(f.ProductId(), f.choice.value.classification, Explicit, [], [], f.typeInfo)
    else
      DecideByRules(Candidates(rules, schemaVersion, f, ev), schemaVersion, f.ProductId(), f.typeInfo, previous)
  }

  function ResolveApplication(k: Knowledge, childId: string, ev: AppEvidence, previous: AppClass): Resolution {
    ResolveFacts(k.rules, k.schemaVersion, FactsFor(k, childId, ev), ev, previous)
  }

  /** A decision is explicit exactly when the evidence identifies one product the child has chosen. */
  lemma {:induction false} ExplicitIs(k: Knowledge, childId: string, ev: AppEvidence, previous: AppClass)
    ensures var identified := IdentifyProducts(k.products, ev);
            var r := ResolveApplication(k, childId, ev, previous);
            && (r.status == Explicit
                <==> |identified| == 1 && ChoiceFor(k.bindings, childId, identified[0]).Some?)
            && (r.status == Explicit ==>
                  && r.productId == Some(identified[0])
                  && r.classification == ChoiceFor(k.bindings, childId, identified[0]).value.classification)
  {
    hide IdentifyProducts, ChoiceFor, ApprovedBy, ResolveProductType, Candidates, Suggestions, BestRules,
         AutomaticRules;
  }
}
