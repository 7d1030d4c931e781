/** The classification of a program instance, case by case, in terms of the context and what is known. */
module InstanceCases {
  import opened Wrappers
  import opened Sequences
  import opened Ordering
  import opened Evidence
  import opened Catalog
  import opened OrderIndependence
  import opened ResolutionCases
  import opened InstanceClassification

  // ----- before the rules

  predicate InScope(c: Context, childId: string) { c.childId == childId && c.binding.childId == childId }

  /** The member is the only one of the list with the property. */
  ghost predicate OnlyOne<T(!new)>(s: seq<T>, p: T -> bool, x: T) {
    exists i :: 0 <= i < |s| && s[i] == x && p(x) && forall j :: 0 <= j < |s| && j != i ==> !p(s[j])
  }

  lemma {:induction false} OnlyOneOf<T(!new)>(s: seq<T>, p: T -> bool, x: T)
    requires s != []
    ensures OnlyOne(s, p, x)
            <==> if p(s[0]) then s[0] == x && (forall y :: y in s[1..] ==> !p(y)) else OnlyOne(s[1..], p, x)
  {
    var rest := s[1..];
    assert forall j :: 0 <= j < |rest| ==> rest[j] == s[j + 1];
    if OnlyOne(s, p, x) {
      var i :| 0 <= i < |s| && s[i] == x && p(x) && forall j :: 0 <= j < |s| && j != i ==> !p(s[j]);
      if i > 0 {
        assert rest[i - 1] == x;
      }
    }
    if !p(s[0]) && OnlyOne(rest, p, x) {
      var i :| 0 <= i < |rest| && rest[i] == x && p(x) && forall j :: 0 <= j < |rest| && j != i ==> !p(rest[j]);
      assert s[i + 1] == x;
      forall j | 0 <= j < |s| && j != i + 1 ensures !p(s[j]) {
        assert j > 0 ==> s[j] == rest[j - 1];
      }
    }
    if p(s[0]) && s[0] == x && forall y :: y in rest ==> !p(y) {
      forall j | 0 <= j < |s| && j != 0 ensures !p(s[j]) {
        assert s[j] == rest[j - 1] && rest[j - 1] in rest;
      }
    }
  }

  lemma {:induction false} OnlyOneIs<T(!new)>(s: seq<T>, p: T -> bool)
    ensures |Filter(s, p)| == 1 <==> exists x :: OnlyOne(s, p, x)
    ensures forall x :: OnlyOne(s, p, x) ==> Filter(s, p) == [x]
    ensures Filter(s, p) == [] <==> forall x :: x in s ==> !p(x)
  {
    if s != [] {
      OnlyOneIs(s[1..], p);
      forall x
        ensures OnlyOne(s, p, x)
                <==> if p(s[0]) then s[0] == x && (forall y :: y in s[1..] ==> !p(y)) else OnlyOne(s[1..], p, x)
      {
        OnlyOneOf(s, p, x);
      }
      hide OnlyOne;
      if p(s[0]) && Filter(s[1..], p) == [] {
        assert OnlyOne(s, p, s[0]);
      }
    }
  }

  /** The instance has exactly one mapping, it is confirmed, and the catalogue has a version. */
  ghost predicate Mapped(c: Context, instanceId: string, m: Mapping) {
    OnlyOne(c.items, (x: Mapping) => x.instanceId == instanceId, m) && m.status == ConfirmedMapping
        && c.catalogVersion.Some?
  }

  /** The context has exactly one product of the mapping. */
  ghost predicate Named(c: Context, m: Mapping, p: TypedProduct) {
    OnlyOne(c.products, (x: TypedProduct) => m.productId == Some(x.id), p)
  }

  ghost predicate Chosen(c: Context, p: TypedProduct, choice: Choice) {
    OnlyOne(c.binding.products, (x: Choice) => x.productId == p.id, choice)
  }

  predicate NotChosen(c: Context, p: TypedProduct) { forall x :: x in c.binding.products ==> x.productId != p.id }

  /** The rules are asked about the mapped product, the rules that the child approved and the platform. */
  ghost predicate RulesAsked(c: Context, childId: string, instanceId: string, m: Mapping, p: TypedProduct) {
    InScope(c, childId) && Mapped(c, instanceId, m) && Named(c, m, p) && NotChosen(c, p)
  }

  lemma {:induction false} ScopeComesFirst(c: Context, childId: string, instanceId: string, platform: Platform,
                                           known: map<Field, string>)
    ensures !InScope(c, childId) ==> ResolveKnown(c, childId, instanceId, platform, known) == Failure(ScopeInvalid)
  {
  }

  lemma {:induction false} UnmappedIsUnknown(c: Context, childId: string, instanceId: string, platform: Platform,
                                             known: map<Field, string>)
    requires InScope(c, childId) && forall m :: !Mapped(c, instanceId, m)
    ensures ResolveKnown(c, childId, instanceId, platform, known)
            == Success(InstanceResolution(None, UnknownInstance, []))
  {
    var mine := (x: Mapping) => x.instanceId == instanceId;
    OnlyOneIs(c.items, mine);
    var mappings := Filter(c.items, (m: Mapping) => m.instanceId == instanceId);
    if |mappings| == 1 {
      var x :| OnlyOne(c.items, mine, x);
      assert mappings == [x];
      assert !Mapped(c, instanceId, x);
    }
  }

  lemma {:induction false} MappedIs(c: Context, childId: string, instanceId: string, m: Mapping)
    requires InScope(c, childId) && Mapped(c, instanceId, m)
    ensures Filter(c.items, (x: Mapping) => x.instanceId == instanceId) == [m]
  {
    OnlyOneIs(c.items, (x: Mapping) => x.instanceId == instanceId);
  }

  /** A mapping to a product that the context does not hold exactly once is an error. */
  lemma {:induction false} UnnamedIsRefused(c: Context, childId: string, instanceId: string, platform: Platform,
                                            known: map<Field, string>, m: Mapping)
    requires InScope(c, childId) && Mapped(c, instanceId, m) && forall p :: !Named(c, m, p)
    ensures ResolveKnown(c, childId, instanceId, platform, known) == Failure(ProductContextInvalid)
  {
    hide Filter, Mapped;
    MappedIs(c, childId, instanceId, m);
    assert m.status == ConfirmedMapping && c.catalogVersion.Some? by { MappedMeans(c, instanceId, m); }
    SameTest(c.products, m);
    if |Filter(c.products, (x: TypedProduct) => m.productId == Some(x.id))| == 1 {
      SomeNamed(c, m);
    }
  }

  lemma {:induction false} SomeNamed(c: Context, m: Mapping)
    requires |Filter(c.products, (x: TypedProduct) => m.productId == Some(x.id))| == 1
    ensures exists p :: Named(c, m, p)
  {
    OnlyOneIs(c.products, (x: TypedProduct) => m.productId == Some(x.id));
    var p :| OnlyOne(c.products, (x: TypedProduct) => m.productId == Some(x.id), p);
    assert Named(c, m, p);
  }

  lemma {:induction false} MappedMeans(c: Context, instanceId: string, m: Mapping)
    requires Mapped(c, instanceId, m)
    ensures m.status == ConfirmedMapping && c.catalogVersion.Some?
  {
  }

  lemma {:induction false} SameTest(products: seq<TypedProduct>, m: Mapping)
    ensures Filter(products, (p: TypedProduct) => Some(p.id) == m.productId)
            == Filter(products, (x: TypedProduct) => m.productId == Some(x.id))
  {
    FilterAgree(products, (p: TypedProduct) => Some(p.id) == m.productId,
                (x: TypedProduct) => m.productId == Some(x.id));
  }

  /** The child's one choice of the mapped product is the answer, and several choices are an error. */
  lemma {:induction false} ChoiceDecides(c: Context, childId: string, instanceId: string, platform: Platform,
                                         known: map<Field, string>, m: Mapping, p: TypedProduct)
    requires InScope(c, childId) && Mapped(c, instanceId, m) && Named(c, m, p)
    ensures forall choice :: Chosen(c, p, choice) ==>
              ResolveKnown(c, childId, instanceId, platform, known)
              == Success(InstanceResolution(Some(choice.classification), ExplicitInstance, []))
    ensures !NotChosen(c, p) && (forall choice :: !Chosen(c, p, choice)) ==>
              ResolveKnown(c, childId, instanceId, platform, known) == Failure(BindingInvalid)
    ensures NotChosen(c, p) ==>
              ResolveKnown(c, childId, instanceId, platform, known)
              == ResolveRules(c.rules, Subject(p, (set id | id in c.binding.ruleIds), platform), known)
  {
    hide Filter, Mapped, Named, Chosen, ResolveRules;
    MappedIs(c, childId, instanceId, m);
    MappedMeans(c, instanceId, m);
    SameTest(c.products, m);
    NamedIs(c, m, p);
    ChosenIs(c, p);
  }

  lemma {:induction false} NamedIs(c: Context, m: Mapping, p: TypedProduct)
    requires Named(c, m, p)
    ensures Filter(c.products, (x: TypedProduct) => m.productId == Some(x.id)) == [p]
  {
    OnlyOneIs(c.products, (x: TypedProduct) => m.productId == Some(x.id));
  }

  lemma {:induction false} ChosenIs(c: Context, p: TypedProduct)
    ensures var mine := Filter(c.binding.products, (x: Choice) => x.productId == p.id);
            && (|mine| == 1 <==> exists choice :: Chosen(c, p, choice))
            && (forall choice :: Chosen(c, p, choice) ==> mine == [choice])
            && (mine == [] <==> NotChosen(c, p))
  {
    var mine := (x: Choice) => x.productId == p.id;
    OnlyOneIs(c.binding.products, mine);
    if |Filter(c.binding.products, mine)| == 1 {
      var choice :| OnlyOne(c.binding.products, mine, choice);
      assert Chosen(c, p, choice);
    }
  }

  // ----- what partial evidence says

  predicate Right(c: Condition, known: map<Field, string>) { c.field in known && c.value == Some(known[c.field]) }

  predicate Wrong(c: Condition, known: map<Field, string>) { c.field in known && c.value != Some(known[c.field]) }

  /** The expression holds whatever else becomes known. */
  predicate Sure(e: Expression, known: map<Field, string>) {
    || (e.operator == All && e.conditions != [] && forall c :: c in e.conditions ==> Right(c, known))
    || (e.operator == Any && exists c :: c in e.conditions && Right(c, known))
  }

  /** The expression cannot hold any more. */
  predicate RuledOut(e: Expression, known: map<Field, string>) {
    || e.conditions == []
    || (e.operator == All && exists c :: c in e.conditions && Wrong(c, known))
    || (e.operator == Any && forall c :: c in e.conditions ==> Wrong(c, known))
  }

  predicate Unreadable(e: Expression) { e.conditions != [] && e.operator == Unsupported }

  lemma {:induction false} EvaluateIs(e: Expression, known: map<Field, string>)
    ensures Evaluate(e, known).Failure? <==> Unreadable(e)
    ensures Evaluate(e, known) == Success(Yes) <==> Sure(e, known)
    ensures Evaluate(e, known) == Success(No) <==> RuledOut(e, known)
  {
    if e.conditions != [] {
      assert e.conditions[0] in e.conditions;
    }
  }

  /** Of an instance at most the binary hash is known. */
  lemma {:induction false} KnownIs(ev: InstanceEvidence, f: Field, value: string)
    ensures f in KnownFields(ev) && KnownFields(ev)[f] == value <==> f == BinaryHash && ev.binaryHash == Some(value)
  {
  }

  // ----- rules

  predicate DecidedByType(r: Rule) { r.kind == TypeKind && r.match_.conditions == [] }

  /** The rule is asked at all. */
  ghost predicate Asked(s: Subject, r: Rule) {
    && r.enabled && r.mode == Automatic && r.id in s.approved
    && (r.platform == None || r.platform == Some(s.platform))
    && (forall id :: About(r, id) ==> id == s.product.id)
    && (DecidedByType(r) || About(r, s.product.id) || Firm(r.match_))
  }

  /** The rule needs no evidence: it is about the product, without conditions. */
  ghost predicate Unconditional(s: Subject, r: Rule) {
    r.kind != TypeKind && r.match_.conditions == [] && About(r, s.product.id)
  }

  predicate TypeFits(s: Subject, r: Rule) { s.product.type_ == r.type_ && r.type_ != UnknownType }

  /** What the rule asks for is certainly there. */
  ghost predicate Met(s: Subject, known: map<Field, string>, r: Rule) {
    if DecidedByType(r) then TypeFits(s, r) else Unconditional(s, r) || Sure(r.match_, known)
  }

  /** What the rule asks for is certainly not there. */
  ghost predicate Unmet(s: Subject, known: map<Field, string>, r: Rule) {
    if DecidedByType(r) then !TypeFits(s, r) else !Unconditional(s, r) && RuledOut(r.match_, known)
  }

  /** The rule may apply as far as is known. */
  ghost predicate Possible(s: Subject, known: map<Field, string>, r: Rule) {
    Asked(s, r) && !Unmet(s, known, r) && forall e :: e in r.exclude ==> !Sure(e, known)
  }

  /** The rule applies whatever else becomes known. */
  ghost predicate Certain(s: Subject, known: map<Field, string>, r: Rule) {
    Asked(s, r) && Met(s, known, r) && forall e :: e in r.exclude ==> RuledOut(e, known)
  }

  /** An expression of the rule that has to be read is of an unknown kind. */
  ghost predicate Refuses(s: Subject, known: map<Field, string>, r: Rule) {
    Asked(s, r) && (Unreadable(r.match_) || (!Unmet(s, known, r) && exists e :: e in r.exclude && Unreadable(e)))
  }

  lemma {:induction false} ExamineIs(s: Subject, known: map<Field, string>, r: Rule)
    ensures Examine(r, s, known).Failure? <==> Refuses(s, known, r)
    ensures !Refuses(s, known, r) ==> (Examine(r, s, known) != Success(None) <==> Possible(s, known, r))
    ensures !Refuses(s, known, r) ==> (Examine(r, s, known) == Success(Some(Candidate(r, true)))
                                       <==> Certain(s, known, r))
    ensures !Refuses(s, known, r) && Possible(s, known, r) && !Certain(s, known, r)
            ==> Examine(r, s, known) == Success(Some(Candidate(r, false)))
  {
    AskedIs(s, r);
    if Asked(s, r) {
      PositiveIs(s, known, r);
    }
    ExclusionsAre(r, known);
    hide Considered, Positive, Evaluate, Asked, Met, Unmet, Sure, RuledOut, Unreadable;
  }

  lemma {:induction false} AskedIs(s: Subject, r: Rule)
    ensures Considered(r, s) <==> Asked(s, r)
  {
    hide SafeAutomatic, Firm;
    SafeIs(r.match_);
    assert r.Targeted() <==> exists id :: About(r, id) by {
      if r.Targeted() {
        assert About(r, r.productId.value);
      }
    }
  }

  lemma {:induction false} SafeIs(e: Expression)
    ensures SafeAutomatic(e) <==> Firm(e)
  {
    ExpressionIs(e, AppEvidence(Windows, "", map[], {}), true);
  }

  lemma {:induction false} PositiveIs(s: Subject, known: map<Field, string>, r: Rule)
    requires Asked(s, r)
    ensures Positive(r, s, known).Failure? <==> Unreadable(r.match_)
    ensures Positive(r, s, known) == Success(Yes) <==> Met(s, known, r)
    ensures Positive(r, s, known) == Success(No) <==> Unmet(s, known, r)
  {
    EvaluateIs(r.match_, known);
    hide Evaluate, Firm;
    assert r.Targeted() ==> About(r, r.productId.value);
  }

  lemma {:induction false} ExclusionsAre(r: Rule, known: map<Field, string>)
    ensures ExcludeFails(r, known) <==> exists e :: e in r.exclude && Unreadable(e)
    ensures ExcludeIs(r, known, Yes) <==> exists e :: e in r.exclude && Sure(e, known)
    ensures !ExcludeFails(r, known) && !ExcludeIs(r, known, Yes) ==>
              (ExcludeIs(r, known, Missing) <==> exists e :: e in r.exclude && !RuledOut(e, known))
  {
    forall e | e in r.exclude
      ensures Evaluate(e, known).Failure? <==> Unreadable(e)
      ensures Evaluate(e, known) == Success(Yes) <==> Sure(e, known)
      ensures Evaluate(e, known) == Success(No) <==> RuledOut(e, known)
    {
      EvaluateIs(e, known);
    }
    hide Evaluate, Sure, RuledOut, Unreadable;
  }

  // ----- the decision

  /** No rule that may apply is stronger. */
  ghost predicate Decides(rules: seq<Rule>, s: Subject, known: map<Field, string>, r: Rule) {
    && r in rules && Possible(s, known, r)
    && forall q :: q in rules && Possible(s, known, q) ==> !Stronger(q.kind, r.kind)
  }

  lemma {:induction false} CandidatesAre(rules: seq<Rule>, s: Subject, known: map<Field, string>)
    requires Collect(rules, s, known).Success?
    ensures forall c :: c in Collect(rules, s, known).value
                        <==> c.rule in rules && Possible(s, known, c.rule) && (c.certain <==> Certain(s, known, c.rule))
  {
    hide Examine, Possible, Certain, Refuses, Collect;
    CollectMembers(rules, s, known);
    forall c: Candidate | c.rule in rules
      ensures Examine(c.rule, s, known) == Success(Some(c))
              <==> Possible(s, known, c.rule) && (c.certain <==> Certain(s, known, c.rule))
    {
      ExamineIs(s, known, c.rule);
      CertainIsPossible(s, known, c.rule);
      ExamineNames(s, known, c.rule);
      assert c == Candidate(c.rule, c.certain);
    }
  }

  lemma {:induction false} CertainIsPossible(s: Subject, known: map<Field, string>, r: Rule)
    ensures Certain(s, known, r) ==> Possible(s, known, r)
  {
    EvaluateIs(r.match_, known);
    forall e | e in r.exclude ensures !(Sure(e, known) && RuledOut(e, known)) {
      EvaluateIs(e, known);
    }
    hide Sure, RuledOut, Evaluate, Firm;
  }

  lemma {:induction false} ExamineNames(s: Subject, known: map<Field, string>, r: Rule)
    ensures Examine(r, s, known).Success? && Examine(r, s, known).value.Some?
            ==> Examine(r, s, known).value.value.rule == r
  {
    hide Considered, Positive, ExcludeFails, ExcludeIs;
  }

  lemma {:induction false} DecidersAre(rules: seq<Rule>, s: Subject, known: map<Field, string>)
    requires Collect(rules, s, known).Success?
    ensures forall c :: c in Best(Collect(rules, s, known).value)
                        <==> Decides(rules, s, known, c.rule) && (c.certain <==> Certain(s, known, c.rule))
  {
    hide Possible, Certain, Collect, Rank, Stronger;
    CandidatesAre(rules, s, known);
    var cs := Collect(rules, s, known).value;
    forall a, b ensures Rank(a) < Rank(b) <==> Stronger(a, b) {
      RanksAre(a, b);
    }
    forall q | q in rules && Possible(s, known, q) ensures Candidate(q, Certain(s, known, q)) in cs {
    }
  }

  /** The resolution refuses exactly when a rule does. */
  lemma {:induction false} RefusalIs(rules: seq<Rule>, s: Subject, known: map<Field, string>)
    ensures ResolveRules(rules, s, known).Failure? <==> exists r :: r in rules && Refuses(s, known, r)
    ensures ResolveRules(rules, s, known).Failure? ==> ResolveRules(rules, s, known).error == InvalidMatchExpression
  {
    hide Examine, Refuses, Collect;
    CollectMembers(rules, s, known);
    CollectErrors(rules, s, known);
    forall r ensures Examine(r, s, known).Failure? <==> Refuses(s, known, r) {
      ExamineIs(s, known, r);
    }
  }

  /** The rules that decide must all be certain, and must agree. */
  lemma {:induction false} RulesDecide(rules: seq<Rule>, s: Subject, known: map<Field, string>)
    requires ResolveRules(rules, s, known).Success?
    ensures var x := ResolveRules(rules, s, known).value;
            && ((forall r :: !Decides(rules, s, known, r))
                ==> x == InstanceResolution(Some(Unclassified), UnclassifiedInstance, []))
            && (forall r :: Decides(rules, s, known, r) && !Certain(s, known, r) ==>
                  x.classification == None && x.status == UnknownInstance)
            && ((forall r :: Decides(rules, s, known, r) ==> Certain(s, known, r)) ==>
                  && (forall q, r :: Decides(rules, s, known, q) && Decides(rules, s, known, r)
                                     && q.classification != r.classification ==>
                        x.classification == None && x.status == ConflictInstance)
                  && (forall r :: Decides(rules, s, known, r) ==>
                        || (x.classification == Some(r.classification) && x.status == AutomaticInstance)
                        || exists q :: Decides(rules, s, known, q) && q.classification != r.classification))
            && (forall id :: id in x.ruleIds <==> exists r :: Decides(rules, s, known, r) && r.id == id)
            && SortedBy(x.ruleIds, AtMost)
  {
    hide Decides, Certain, Collect, Best, Disagree, SortIds;
    var cs := Collect(rules, s, known).value;
    var best := Best(cs);
    DecidersAre(rules, s, known);
    BestOfNothing();
    BestListed(best);
    DisagreeIs(RulesOf(best));
    forall r | Decides(rules, s, known, r) ensures Candidate(r, Certain(s, known, r)) in best {
    }
    assert best != [] ==> best[0] in best;
  }

  lemma {:induction false} BestListed(best: seq<Candidate>)
    ensures forall r :: r in RulesOf(best) <==> exists c :: c in best && c.rule == r
    ensures forall id :: id in SortIds(RuleIds(RulesOf(best))) <==> exists c :: c in best && c.rule.id == id
    ensures SortedBy(SortIds(RuleIds(RulesOf(best))), AtMost)
  {
    hide SortBy, AtMost;
    MapMembers(best, (c: Candidate) => c.rule);
    MapMembers(RulesOf(best), (r: Rule) => r.id);
    SameMembers(RuleIds(RulesOf(best)), SortIds(RuleIds(RulesOf(best))));
    AtMostIsTotal();
    SortSorts(RuleIds(RulesOf(best)), AtMost);
  }
}
