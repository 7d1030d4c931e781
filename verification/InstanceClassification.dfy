/** Classification of a program instance from partial evidence: a missing field is not a mismatch. */
module InstanceClassification {
  import opened Wrappers
  import opened Sequences
  import opened Ordering
  import opened Evidence
  import opened Catalog
  import opened OrderIndependence

  datatype Truth = Yes | No | Missing

  datatype InstanceEvidence = InstanceEvidence(platform: Platform, binaryHash: Option<string>)

  datatype ResolveError = InvalidMatchExpression | ScopeInvalid | ProductContextInvalid | BindingInvalid

  datatype MappingStatus = ConfirmedMapping | UnresolvedMapping | ConflictMapping | PendingMapping

  datatype Mapping = Mapping(instanceId: string, status: MappingStatus, productId: Option<string>)

  datatype TypedProduct = TypedProduct(id: string, type_: AppType)

  datatype Context = Context(
    childId: string,
    catalogVersion: Option<nat>,
    items: seq<Mapping>,
    products: seq<TypedProduct>,
    rules: seq<Rule>,
    binding: Binding)

  datatype InstanceStatus =
    | ExplicitInstance | AutomaticInstance | UnclassifiedInstance | UnknownInstance | ConflictInstance

  datatype InstanceResolution = InstanceResolution(classification: Option<AppClass>, status: InstanceStatus,
                                                   ruleIds: seq<string>)

  type Resolved = Result<InstanceResolution, ResolveError>

  // ----- expressions over known fields

  /** What is known about an instance: of all the fields only the binary hash can be. */
  function KnownFields(ev: InstanceEvidence): map<Field, string> {
    if ev.binaryHash.Some? then map[BinaryHash := ev.binaryHash.value] else map[]
  }

  function ConditionTruth(c: Condition, known: map<Field, string>): Truth {
    if c.field !in known then Missing else if Some(known[c.field]) == c.value then Yes else No
  }

  function Evaluate(e: Expression, known: map<Field, string>): Result<Truth, ResolveError> {
    if e.conditions == [] then Success(No)
    else
      match e.operator
      case All =>
        Success(if exists c :: c in e.conditions && ConditionTruth(c, known) == No then No
                else if exists c :: c in e.conditions && ConditionTruth(c, known) == Missing then Missing
                else Yes)
      case Any =>
        Success(if exists c :: c in e.conditions && ConditionTruth(c, known) == Yes then Yes
                else if exists c :: c in e.conditions && ConditionTruth(c, known) == Missing then Missing
                else No)
      case Unsupported => Failure(InvalidMatchExpression)
  }

  // ----- candidates

  datatype Candidate = Candidate(rule: Rule, certain: bool)

  /** Everything about a resolution that does not depend on the evidence. */
  datatype Subject = Subject(product: TypedProduct, approved: set<string>, platform: Platform)

  predicate Considered(r: Rule, s: Subject) {
    && r.enabled && r.id in s.approved && r.mode == Automatic
    && r.AboutPlatform(s.platform)
    && (r.Targeted() ==> r.productId == Some(s.product.id))
    && (TypeOnly(r) || r.Targeted() || SafeAutomatic(r.match_))
  }

  predicate TypeOnly(r: Rule) { r.kind == TypeKind && r.match_.conditions == [] }

  function Positive(r: Rule, s: Subject, known: map<Field, string>): Result<Truth, ResolveError> {
    if TypeOnly(r) then
      Success(if s.product.type_ != UnknownType && s.product.type_ == r.type_ then Yes else No)
    else if r.Targeted() && r.match_.conditions == [] then Success(Yes)
    else Evaluate(r.match_, known)
  }

  predicate ExcludeFails(r: Rule, known: map<Field, string>) {
    exists e :: e in r.exclude && Evaluate(e, known).Failure?
  }

  predicate ExcludeIs(r: Rule, known: map<Field, string>, t: Truth) {
    exists e :: e in r.exclude && Evaluate(e, known) == Success(t)
  }

  /** One turn of the candidate loop: refused, skipped, or a candidate that is certain or not. */
  function Examine(r: Rule, s: Subject, known: map<Field, string>): Result<Option<Candidate>, ResolveError> {
    if !Considered(r, s) then Success(None)
    else
      var positive := Positive(r, s, known);
      if positive.Failure? then Failure(positive.error)
      else if positive.value == No then Success(None)
      else if ExcludeFails(r, known) then Failure(InvalidMatchExpression)
      else if ExcludeIs(r, known, Yes) then Success(None)
      else Success(Some(Candidate(r, positive.value == Yes && !ExcludeIs(r, known, Missing))))
  }

  function Collect(rules: seq<Rule>, s: Subject, known: map<Field, string>): Result<seq<Candidate>, ResolveError> {
    if rules == [] then Success([])
    else
      var init := Collect(rules[..|rules| - 1], s, known);
      if init.Failure? then init
      else
        match Examine(rules[|rules| - 1], s, known)
        case Failure(e) => Failure(e)
        case Success(None) => init
        case Success(Some(c)) => Success(init.value + [c])
  }

  // ----- decision

  function RulesOf(cs: seq<Candidate>): seq<Rule> { Map(cs, (c: Candidate) => c.rule) }

  predicate Strongest(cs: seq<Candidate>, c: Candidate) {
    forall d :: d in cs ==> Rank(c.rule.kind) <= Rank(d.rule.kind)
  }

  function Best(cs: seq<Candidate>): (best: seq<Candidate>)
    ensures cs != [] ==> best != []
  {
    SomeStrongest(cs);
    Filter(cs, (c: Candidate) => Strongest(cs, c))
  }

  lemma {:induction false} SomeStrongest(cs: seq<Candidate>)
    ensures cs != [] ==> exists c :: c in cs && Strongest(cs, c)
  {
    if |cs| == 1 {
      assert Strongest(cs, cs[0]);
    } else if cs != [] {
      SomeStrongest(cs[1..]);
      var c :| c in cs[1..] && Strongest(cs[1..], c);
      assert forall d :: d in cs <==> d == cs[0] || d in cs[1..];
      assert Strongest(cs, if Rank(cs[0].rule.kind) < Rank(c.rule.kind) then cs[0] else c);
    }
  }

  function Decide(cs: seq<Candidate>): InstanceResolution {
    if cs == [] then InstanceResolution(Some(Unclassified), UnclassifiedInstance, [])
    else
      var best := Best(cs);
      var ruleIds := SortIds(RuleIds(RulesOf(best)));
      if exists c :: c in best && !c.certain then InstanceResolution(None, UnknownInstance, ruleIds)
      else if Disagree(RulesOf(best)) then InstanceResolution(None, ConflictInstance, ruleIds)
      else InstanceResolution(Some(best[0].rule.classification), AutomaticInstance, ruleIds)
  }

  function ResolveRules(rules: seq<Rule>, s: Subject, known: map<Field, string>): Resolved {
    match Collect(rules, s, known)
    case Failure(e) => Failure(e)
    case Success(cs) => Success(Decide(cs))
  }

  const UNKNOWN := InstanceResolution(None, UnknownInstance, [])

  /** The resolution as far as the mapping and the child's choices decide it; otherwise the subject
      about which the rules must be asked. */
  datatype Prelude = Done(resolved: Resolved) | Ask(subject: Subject)

  function Before(context: Context, childId: string, instanceId: string, platform: Platform): Prelude {
    if context.childId != childId || context.binding.childId != childId then Done(Failure(ScopeInvalid))
    else
      var mappings := Filter(context.items, (m: Mapping) => m.instanceId == instanceId);
      if |mappings| != 1 || context.catalogVersion.None? || mappings[0].status != ConfirmedMapping then
        Done(Success(UNKNOWN))
      else
        var products := Filter(context.products, (p: TypedProduct) => Some(p.id) == mappings[0].productId);
        if |products| != 1 then Done(Failure(ProductContextInvalid))
        else
          var explicit := Filter(context.binding.products, (c: Choice) => c.productId == products[0].id);
          if |explicit| > 1 then Done(Failure(BindingInvalid))
          else if |explicit| == 1 then
            Done(Success(InstanceResolution(Some(explicit[0].classification), ExplicitInstance, [])))
          else Ask(Subject(products[0], (set id | id in context.binding.ruleIds), platform))
  }

  function ResolveKnown(context: Context, childId: string, instanceId: string, platform: Platform,
                        known: map<Field, string>): Resolved {
    match Before(context, childId, instanceId, platform)
    case Done(r) => r
    case Ask(s) => ResolveRules(context.rules, s, known)
  }

  /** The program's own loop over the rules. */
  method ResolveProgramInstanceClassification(context: Context, childId: string, instanceId: string,
                                              ev: InstanceEvidence)
    returns (r: Resolved)
    ensures r == ResolveKnown(context, childId, instanceId, ev.platform, KnownFields(ev))
  {
    var before := Before(context, childId, instanceId, ev.platform);
    if before.Done? {
      return before.resolved;
    }
    var s, known := before.subject, KnownFields(ev);
    var candidates: seq<Candidate> := [];
    for i := 0 to |context.rules|
      invariant Collect(context.rules[..i], s, known) == Success(candidates)
    {
      var rule := context.rules[i];
      assert context.rules[..i + 1][..i] == context.rules[..i];
      var step := Examine(rule, s, known);
      if step.Failure? {
        CollectFails(context.rules, i + 1, s, known);
        return Failure(step.error);
      }
      if step.value.Some? {
        candidates := candidates + [step.value.value];
      }
    }
    assert context.rules[..|context.rules|] == context.rules;
    return Success(Decide(candidates));
  }

  lemma {:induction false} CollectFails(rules: seq<Rule>, n: nat, s: Subject, known: map<Field, string>)
    requires n <= |rules| && Collect(rules[..n], s, known).Failure?
    ensures Collect(rules, s, known) == Collect(rules[..n], s, known)
    decreases |rules|
  {
    if n == |rules| {
      assert rules[..n] == rules;
    } else {
      assert rules[..|rules| - 1][..n] == rules[..n];
      CollectFails(rules[..|rules| - 1], n, s, known);
    }
  }

  // ----- stability under more evidence

  /** `more` knows everything `known` knows, and agrees with it. */
  ghost predicate Extends(more: map<Field, string>, known: map<Field, string>) {
    forall f :: f in known ==> f in more && more[f] == known[f]
  }

  lemma {:induction false} EvaluateIsStable(e: Expression, known: map<Field, string>, more: map<Field, string>)
    requires Extends(more, known)
    ensures Evaluate(e, known).Failure? <==> Evaluate(e, more).Failure?
    ensures Evaluate(e, known).Success? && Evaluate(e, known).value != Missing
            ==> Evaluate(e, more) == Evaluate(e, known)
  {
    assert forall c :: c in e.conditions && ConditionTruth(c, known) != Missing
                       ==> ConditionTruth(c, more) == ConditionTruth(c, known);
  }

  /** More evidence can turn an uncertain candidate into a certain one or remove it; a certain one stays,
      and a rule that was passed over stays passed over. */
  lemma {:induction false} ExamineIsStable(r: Rule, s: Subject, known: map<Field, string>, more: map<Field, string>)
    requires Extends(more, known) && Examine(r, s, known).Success?
    ensures Examine(r, s, more).Success?
    ensures Examine(r, s, known).value.None? ==> Examine(r, s, more).value.None?
    ensures Examine(r, s, known).value.Some? && Examine(r, s, known).value.value.certain
            ==> Examine(r, s, more) == Examine(r, s, known)
  {
    hide Considered, Evaluate, Extends;
    EvaluateIsStable(r.match_, known, more);
    forall e | e in r.exclude
      ensures Evaluate(e, known).Failure? <==> Evaluate(e, more).Failure?
      ensures Evaluate(e, known).Success? && Evaluate(e, known).value != Missing
              ==> Evaluate(e, more) == Evaluate(e, known)
    {
      EvaluateIsStable(e, known, more);
    }
  }

  lemma {:induction false} CollectMembers(rules: seq<Rule>, s: Subject, known: map<Field, string>)
    ensures Collect(rules, s, known).Success? <==> forall r :: r in rules ==> Examine(r, s, known).Success?
    ensures Collect(rules, s, known).Success? ==>
              forall c :: c in Collect(rules, s, known).value
                          <==> c.rule in rules && Examine(c.rule, s, known) == Success(Some(c))
  {
    if rules != [] {
      var last := rules[|rules| - 1];
      assert forall r :: r in rules <==> r in rules[..|rules| - 1] || r == last;
      CollectMembers(rules[..|rules| - 1], s, known);
      hide Considered, Positive, ExcludeFails, ExcludeIs;
      assert Examine(last, s, known).Success? && Examine(last, s, known).value.Some?
             ==> Examine(last, s, known).value.value.rule == last;
    }
  }

  /** Every remaining candidate was one before, and the certain ones all remain. */
  ghost predicate Narrowed(cs: seq<Candidate>, cs': seq<Candidate>) {
    && (forall c' :: c' in cs' ==> exists c :: c in cs && c.rule == c'.rule && (c.certain ==> c == c'))
    && (forall c :: c in cs && c.certain ==> c in cs')
  }

  lemma {:induction false} EvidenceNarrows(rules: seq<Rule>, s: Subject, known: map<Field, string>,
                                           more: map<Field, string>)
    requires Extends(more, known) && Collect(rules, s, known).Success?
    ensures Collect(rules, s, more).Success?
    ensures Narrowed(Collect(rules, s, known).value, Collect(rules, s, more).value)
  {
    CollectMembers(rules, s, known);
    CollectMembers(rules, s, more);
    hide Collect, Extends, Considered, Positive, ExcludeFails, ExcludeIs;
    forall r | r in rules ensures Examine(r, s, more).Success? {
      ExamineIsStable(r, s, known, more);
    }
    var cs, cs' := Collect(rules, s, known).value, Collect(rules, s, more).value;
    forall c' | c' in cs' ensures exists c :: c in cs && c.rule == c'.rule && (c.certain ==> c == c') {
      ExamineIsStable(c'.rule, s, known, more);
      ExamineGives(c'.rule, s, known);
      var c := Examine(c'.rule, s, known).value.value;
      assert c in cs;
    }
    forall c | c in cs && c.certain ensures c in cs' {
      ExamineIsStable(c.rule, s, known, more);
    }
  }

  lemma {:induction false} ExamineGives(r: Rule, s: Subject, known: map<Field, string>)
    requires Examine(r, s, known).Success? && Examine(r, s, known).value.Some?
    ensures Examine(r, s, known).value.value.rule == r
  {
  }

  lemma {:induction false} StrongestSurvive(cs: seq<Candidate>, cs': seq<Candidate>)
    requires Narrowed(cs, cs') && forall c :: c in cs && Strongest(cs, c) ==> c.certain
    ensures forall c :: c in cs' && Strongest(cs', c) <==> c in cs && Strongest(cs, c)
  {
    SomeStrongest(cs);
    if cs != [] {
      var least :| least in cs && Strongest(cs, least);
      assert least in cs';
      forall c ensures c in cs' && Strongest(cs', c) <==> c in cs && Strongest(cs, c) {
        if c in cs' && Strongest(cs', c) {
          var was :| was in cs && was.rule == c.rule && (was.certain ==> was == c);
          assert Rank(c.rule.kind) <= Rank(least.rule.kind);
          assert Strongest(cs, was);
        }
      }
    }
  }

  /** Candidates that both collections agree on come out in the order of the rules. */
  lemma {:induction false} KeptInOrder(rules: seq<Rule>, s: Subject, known: map<Field, string>,
                                       more: map<Field, string>, keep: Candidate -> bool)
    requires Extends(more, known) && Collect(rules, s, known).Success? && Collect(rules, s, more).Success?
    requires forall c :: keep(c) ==> c.certain && Examine(c.rule, s, known) == Success(Some(c))
    ensures Filter(Collect(rules, s, more).value, keep) == Filter(Collect(rules, s, known).value, keep)
    decreases |rules|
  {
    if rules != [] {
      var init, last := rules[..|rules| - 1], rules[|rules| - 1];
      KeptInOrder(init, s, known, more, keep);
      ExamineIsStable(last, s, known, more);
      var was, now := Examine(last, s, known).value, Examine(last, s, more).value;
      hide Extends, Considered, Positive, ExcludeFails, ExcludeIs;
      if was.Some? {
        FilterSnoc(Collect(init, s, known).value, was.value, keep);
      }
      if now.Some? {
        ExamineGives(last, s, more);
        FilterSnoc(Collect(init, s, more).value, now.value, keep);
      }
    }
  }

  lemma {:induction false} BestIsStable(rules: seq<Rule>, s: Subject, known: map<Field, string>,
                                        more: map<Field, string>)
    requires Extends(more, known) && Collect(rules, s, known).Success?
    requires forall c :: c in Best(Collect(rules, s, known).value) ==> c.certain
    ensures Collect(rules, s, more).Success?
    ensures Best(Collect(rules, s, more).value) == Best(Collect(rules, s, known).value)
  {
    EvidenceNarrows(rules, s, known, more);
    var cs, cs' := Collect(rules, s, known).value, Collect(rules, s, more).value;
    CollectMembers(rules, s, known);
    hide Collect, Examine, Extends, Narrowed;
    StrongestSurvive(cs, cs');
    var keep := (c: Candidate) => c in cs && Strongest(cs, c);
    FilterAgree(cs, (c: Candidate) => Strongest(cs, c), keep);
    FilterAgree(cs', (c: Candidate) => Strongest(cs', c), keep);
    KeptInOrder(rules, s, known, more, keep);
  }

  /** A decision other than "unknown" is final: whatever evidence is supplied later, the whole result
      stays the same. */
  lemma {:induction false} DecidedIsStable(context: Context, childId: string, instanceId: string, platform: Platform,
                                           known: map<Field, string>, more: map<Field, string>)
    requires Extends(more, known)
    requires ResolveKnown(context, childId, instanceId, platform, known).Success?
    requires ResolveKnown(context, childId, instanceId, platform, known).value.status != UnknownInstance
    ensures ResolveKnown(context, childId, instanceId, platform, more)
            == ResolveKnown(context, childId, instanceId, platform, known)
  {
    hide Before, Collect, Best, Extends, Disagree, SortIds;
    var before := Before(context, childId, instanceId, platform);
    if before.Ask? {
      var cs := Collect(context.rules, before.subject, known).value;
      assert cs == [] ==> Best(cs) == [] by { BestOfNothing(); }
      BestIsStable(context.rules, before.subject, known, more);
      EvidenceNarrows(context.rules, before.subject, known, more);
      BestOfNothing();
    }
  }

  lemma {:induction false} BestOfNothing()
    ensures Best([]) == []
  {
  }

  // ----- agreement with two-valued classification

  /** A world settles every field. */
  ghost predicate Settled(world: map<Field, string>) { forall f: Field :: f in world }

  predicate HoldsIn(e: Expression, world: map<Field, string>) {
    && e.conditions != []
    && (match e.operator
        case All => forall c :: c in e.conditions ==> c.field in world && Some(world[c.field]) == c.value
        case Any => exists c :: c in e.conditions && c.field in world && Some(world[c.field]) == c.value
        case Unsupported => false)
  }

  predicate AppliesIn(r: Rule, s: Subject, world: map<Field, string>) {
    && Considered(r, s)
    && (if TypeOnly(r) then s.product.type_ != UnknownType && s.product.type_ == r.type_
        else (r.Targeted() && r.match_.conditions == []) || HoldsIn(r.match_, world))
    && !exists e :: e in r.exclude && HoldsIn(e, world)
  }

  predicate WinsIn(r: Rule, rules: seq<Rule>, s: Subject, world: map<Field, string>) {
    AppliesIn(r, s, world) && forall q :: q in rules && AppliesIn(q, s, world) ==> Rank(r.kind) <= Rank(q.kind)
  }

  /** The two-valued classification: of the rules that apply, those of the strongest kind decide. */
  function ClassifyIn(rules: seq<Rule>, s: Subject, world: map<Field, string>): InstanceResolution {
    var winners := Filter(rules, (r: Rule) => WinsIn(r, rules, s, world));
    var ruleIds := SortIds(RuleIds(winners));
    if winners == [] then InstanceResolution(Some(Unclassified), UnclassifiedInstance, [])
    else if Disagree(winners) then InstanceResolution(None, ConflictInstance, ruleIds)
    else InstanceResolution(Some(winners[0].classification), AutomaticInstance, ruleIds)
  }

  lemma {:induction false} EvaluateInWorld(e: Expression, world: map<Field, string>)
    requires Settled(world) && Evaluate(e, world).Success?
    ensures Evaluate(e, world).value == if HoldsIn(e, world) then Yes else No
  {
  }

  lemma {:induction false} ExamineInWorld(r: Rule, s: Subject, world: map<Field, string>)
    requires Settled(world) && Examine(r, s, world).Success?
    ensures Examine(r, s, world).value == if AppliesIn(r, s, world) then Some(Candidate(r, true)) else None
  {
    hide Considered, Evaluate, HoldsIn;
    assert Considered(r, s) && !TypeOnly(r) && !(r.Targeted() && r.match_.conditions == [])
           ==> Evaluate(r.match_, world).Success?;
    if Evaluate(r.match_, world).Success? {
      EvaluateInWorld(r.match_, world);
    }
    forall e | e in r.exclude && Evaluate(e, world).Success?
      ensures Evaluate(e, world).value == if HoldsIn(e, world) then Yes else No {
      EvaluateInWorld(e, world);
    }
  }

  lemma {:induction false} CollectInWorld(rules: seq<Rule>, s: Subject, world: map<Field, string>)
    requires Settled(world) && Collect(rules, s, world).Success?
    ensures Collect(rules, s, world).value
            == Map(Filter(rules, (r: Rule) => AppliesIn(r, s, world)), (r: Rule) => Candidate(r, true))
    decreases |rules|
  {
    hide AppliesIn, Examine, Settled, Filter, Map;
    if rules != [] {
      var init, last := rules[..|rules| - 1], rules[|rules| - 1];
      CollectInWorld(init, s, world);
      ExamineInWorld(last, s, world);
      assert rules == init + [last];
      FilterSnoc(init, last, (r: Rule) => AppliesIn(r, s, world));
      MapConcat(Filter(init, (r: Rule) => AppliesIn(r, s, world)), [last], (r: Rule) => Candidate(r, true));
    }
  }

  lemma {:induction false} FilterOfMap(rules: seq<Rule>, keep: Candidate -> bool, wins: Rule -> bool)
    requires forall r :: r in rules ==> keep(Candidate(r, true)) == wins(r)
    ensures Filter(Map(rules, (r: Rule) => Candidate(r, true)), keep)
            == Map(Filter(rules, wins), (r: Rule) => Candidate(r, true))
  {
    if rules != [] {
      assert Map(rules, (r: Rule) => Candidate(r, true))[1..] == Map(rules[1..], (r: Rule) => Candidate(r, true));
      FilterOfMap(rules[1..], keep, wins);
    }
  }

  lemma {:induction false} BestInWorld(rules: seq<Rule>, s: Subject, world: map<Field, string>)
    requires Settled(world) && Collect(rules, s, world).Success?
    ensures Best(Collect(rules, s, world).value)
            == Map(Filter(rules, (r: Rule) => WinsIn(r, rules, s, world)), (r: Rule) => Candidate(r, true))
  {
    var applies := (r: Rule) => AppliesIn(r, s, world);
    var wins := (r: Rule) => WinsIn(r, rules, s, world);
    var cs := Collect(rules, s, world).value;
    CollectInWorld(rules, s, world);
    MapMembers(Filter(rules, applies), (r: Rule) => Candidate(r, true));
    assert forall c :: c in cs <==> c.certain && c.rule in rules && AppliesIn(c.rule, s, world);
    hide Collect, Settled, AppliesIn;
    forall r | r in Filter(rules, applies) ensures Strongest(cs, Candidate(r, true)) == wins(r) {
      assert forall q :: q in rules && AppliesIn(q, s, world) ==> Candidate(q, true) in cs;
    }
    FilterOfMap(Filter(rules, applies), (c: Candidate) => Strongest(cs, c), wins);
    FilterOfFilter(rules, applies, wins);
  }

  /** When every field is known the three-valued resolution is the two-valued one, never "unknown". */
  lemma {:induction false} ResolveInWorld(rules: seq<Rule>, s: Subject, world: map<Field, string>)
    requires Settled(world) && ResolveRules(rules, s, world).Success?
    ensures ResolveRules(rules, s, world).value == ClassifyIn(rules, s, world)
  {
    var winners := Filter(rules, (r: Rule) => WinsIn(r, rules, s, world));
    var best := Best(Collect(rules, s, world).value);
    BestInWorld(rules, s, world);
    assert RulesOf(best) == winners;
    hide Collect, Settled, WinsIn, Filter;
    BestOfNothing();
  }

  // ----- worlds in which a field stays absent

  function Expressions(r: Rule): seq<Expression> { [r.match_] + r.exclude }

  predicate AsksFor(r: Rule, value: string) {
    exists e :: e in Expressions(r) && exists c :: c in e.conditions && c.value == Some(value)
  }

  ghost function ValuesOf(e: Expression): set<string> {
    set c | c in e.conditions && c.value.Some? :: c.value.value
  }

  ghost function AskedFor(rules: seq<Rule>): set<string> {
    set r, e, v | r in rules && e in Expressions(r) && v in ValuesOf(e) :: v
  }

  lemma {:induction false} BoundedLength(values: set<string>) returns (n: nat)
    ensures forall v :: v in values ==> |v| < n
  {
    if values == {} {
      n := 0;
    } else {
      var v :| v in values;
      n := BoundedLength(values - {v});
      n := if n <= |v| then |v| + 1 else n;
    }
  }

  /** Some value that no rule asks for. */
  lemma {:induction false} UnaskedValue(rules: seq<Rule>) returns (x: string)
    ensures forall r :: r in rules ==> !AsksFor(r, x)
  {
    var n := BoundedLength(AskedFor(rules));
    x := seq(n, _ => 'a');
    forall r | r in rules ensures !AsksFor(r, x) {
      forall e, c | e in Expressions(r) && c in e.conditions ensures c.value != Some(x) {
        assert c.value == Some(x) ==> x in ValuesOf(e);
        assert x in ValuesOf(e) ==> x in AskedFor(rules);
      }
    }
  }

  /** The world in which every absent field has the value. */
  ghost function Completed(world: map<Field, string>, x: string): map<Field, string> {
    map f: Field | true :: if f in world then world[f] else x
  }

  lemma {:induction false} HoldsInCompleted(e: Expression, world: map<Field, string>, x: string)
    requires forall c :: c in e.conditions ==> c.value != Some(x)
    ensures HoldsIn(e, Completed(world, x)) <==> HoldsIn(e, world)
  {
    var full := Completed(world, x);
    assert forall c :: c in e.conditions ==>
        ((c.field in full && Some(full[c.field]) == c.value)
         <==> (c.field in world && Some(world[c.field]) == c.value));
  }

  lemma {:induction false} AppliesInCompleted(r: Rule, s: Subject, world: map<Field, string>, x: string)
    requires !AsksFor(r, x)
    ensures AppliesIn(r, s, Completed(world, x)) <==> AppliesIn(r, s, world)
  {
    hide HoldsIn, Completed;
    forall e | e in Expressions(r) ensures HoldsIn(e, Completed(world, x)) <==> HoldsIn(e, world) {
      HoldsInCompleted(e, world, x);
    }
    assert r.match_ in Expressions(r);
    assert forall e :: e in r.exclude ==> e in Expressions(r);
  }

  lemma {:induction false} ClassifyInCompleted(rules: seq<Rule>, s: Subject, world: map<Field, string>, x: string)
    requires forall r :: r in rules ==> !AsksFor(r, x)
    ensures ClassifyIn(rules, s, Completed(world, x)) == ClassifyIn(rules, s, world)
  {
    hide AppliesIn, Completed, AsksFor;
    var full := Completed(world, x);
    forall r | r in rules ensures AppliesIn(r, s, full) <==> AppliesIn(r, s, world) {
      AppliesInCompleted(r, s, world, x);
    }
    FilterAgree(rules, (r: Rule) => WinsIn(r, rules, s, full), (r: Rule) => WinsIn(r, rules, s, world));
  }

  /** Soundness: a decision from partial evidence is what two-valued classification gives in every
      world that agrees with the evidence, also in those where some fields stay absent. */
  lemma {:induction false} DecidedHoldsInEveryWorld(context: Context, childId: string, instanceId: string,
                                                    ev: InstanceEvidence, s: Subject, world: map<Field, string>)
    requires Extends(world, KnownFields(ev))
    requires Before(context, childId, instanceId, ev.platform) == Ask(s)
    requires ResolveKnown(context, childId, instanceId, ev.platform, KnownFields(ev)).Success?
    requires ResolveKnown(context, childId, instanceId, ev.platform, KnownFields(ev)).value.status != UnknownInstance
    ensures ResolveKnown(context, childId, instanceId, ev.platform, KnownFields(ev)).value
            == ClassifyIn(context.rules, s, world)
  {
    var x := UnaskedValue(context.rules);
    var full := Completed(world, x);
    assert Settled(full) && Extends(full, KnownFields(ev));
    hide Settled, Extends, Before, Collect, KnownFields, ClassifyIn, Completed, AsksFor;
    DecidedIsStable(context, childId, instanceId, ev.platform, KnownFields(ev), full);
    ResolveInWorld(context.rules, s, full);
    ClassifyInCompleted(context.rules, s, world, x);
  }

  // ----- order independence

  ghost predicate ReorderedContext(c: Context, c': Context) {
    && c.childId == c'.childId && c.catalogVersion == c'.catalogVersion && c.binding.childId == c'.binding.childId
    && multiset(c.items) == multiset(c'.items) && multiset(c.products) == multiset(c'.products)
    && multiset(c.rules) == multiset(c'.rules)
    && multiset(c.binding.products) == multiset(c'.binding.products)
    && multiset(c.binding.ruleIds) == multiset(c'.binding.ruleIds)
  }

  lemma {:induction false} FilteredOne<T>(s: seq<T>, t: seq<T>, p: T -> bool)
    requires multiset(s) == multiset(t)
    ensures |Filter(s, p)| == |Filter(t, p)|
    ensures |Filter(s, p)| == 1 ==> Filter(s, p) == Filter(t, p)
  {
    FilterPermutes(s, t, p);
    SameMembers(Filter(s, p), Filter(t, p));
    if |Filter(s, p)| == 1 {
      assert Filter(s, p)[0] in Filter(t, p);
    }
  }

  lemma {:induction false} BeforeIsReordered(c: Context, c': Context, childId: string, instanceId: string,
                                             platform: Platform)
    requires ReorderedContext(c, c')
    ensures Before(c, childId, instanceId, platform) == Before(c', childId, instanceId, platform)
  {
    hide Filter;
    var mine := (m: Mapping) => m.instanceId == instanceId;
    FilteredOne(c.items, c'.items, mine);
    var mappings := Filter(c.items, mine);
    SameMembers(c.binding.ruleIds, c'.binding.ruleIds);
    if |mappings| == 1 {
      var wanted := (p: TypedProduct) => Some(p.id) == mappings[0].productId;
      FilteredOne(c.products, c'.products, wanted);
      var products := Filter(c.products, wanted);
      if |products| == 1 {
        FilteredOne(c.binding.products, c'.binding.products, (x: Choice) => x.productId == products[0].id);
      }
    }
  }

  function CandidateOf(r: Rule, s: Subject, known: map<Field, string>): Candidate {
    match Examine(r, s, known)
    case Success(Some(c)) => c
    case _ => Candidate(r, false)
  }

  predicate IsCandidateHere(r: Rule, s: Subject, known: map<Field, string>) {
    Examine(r, s, known).Success? && Examine(r, s, known).value.Some?
  }

  lemma {:induction false} CollectIs(rules: seq<Rule>, s: Subject, known: map<Field, string>)
    requires Collect(rules, s, known).Success?
    ensures Collect(rules, s, known).value
            == Map(Filter(rules, (r: Rule) => IsCandidateHere(r, s, known)), (r: Rule) => CandidateOf(r, s, known))
    decreases |rules|
  {
    hide Examine, Filter, Map;
    if rules != [] {
      var init, last := rules[..|rules| - 1], rules[|rules| - 1];
      CollectIs(init, s, known);
      assert rules == init + [last];
      FilterSnoc(init, last, (r: Rule) => IsCandidateHere(r, s, known));
      MapConcat(Filter(init, (r: Rule) => IsCandidateHere(r, s, known)), [last], (r: Rule) => CandidateOf(r, s, known));
    }
  }

  lemma {:induction false} StrongestAreReordered(cs: seq<Candidate>, cs': seq<Candidate>)
    requires multiset(cs) == multiset(cs')
    ensures multiset(Best(cs)) == multiset(Best(cs'))
  {
    SameMembers(cs, cs');
    FilterAgree(cs', (c: Candidate) => Strongest(cs', c), (c: Candidate) => Strongest(cs, c));
    FilterPermutes(cs, cs', (c: Candidate) => Strongest(cs, c));
  }

  lemma {:induction false} IdsAreReordered(best: seq<Candidate>, best': seq<Candidate>)
    requires multiset(best) == multiset(best')
    ensures multiset(RulesOf(best)) == multiset(RulesOf(best'))
    ensures SortIds(RuleIds(RulesOf(best))) == SortIds(RuleIds(RulesOf(best')))
  {
    MapPermutes(best, best', (c: Candidate) => c.rule);
    MapPermutes(RulesOf(best), RulesOf(best'), (r: Rule) => r.id);
    SortIdsPermutes(RuleIds(RulesOf(best)), RuleIds(RulesOf(best')));
  }

  lemma {:induction false} DecideIsReordered(cs: seq<Candidate>, cs': seq<Candidate>)
    requires multiset(cs) == multiset(cs')
    ensures Decide(cs) == Decide(cs')
  {
    hide Best, Disagree, Strongest, SortIds;
    var best, best' := Best(cs), Best(cs');
    StrongestAreReordered(cs, cs');
    IdsAreReordered(best, best');
    SameMembers(cs, cs');
    SameMembers(best, best');
    DisagreeIsReordered(RulesOf(best), RulesOf(best'));
    if best != [] && !Disagree(RulesOf(best)) {
      AgreedClassIsReordered(RulesOf(best), RulesOf(best'));
    }
  }

  /** The order of mappings, products, rules, choices and approvals never shows in the result. */
  lemma {:induction false} InstanceResolutionIsReordered(c: Context, c': Context, childId: string, instanceId: string,
                                                         platform: Platform, known: map<Field, string>)
    requires ReorderedContext(c, c')
    ensures ResolveKnown(c, childId, instanceId, platform, known)
            == ResolveKnown(c', childId, instanceId, platform, known)
  {
    BeforeIsReordered(c, c', childId, instanceId, platform);
    var before := Before(c, childId, instanceId, platform);
    if before.Ask? {
      var s := before.subject;
      CollectMembers(c.rules, s, known);
      CollectMembers(c'.rules, s, known);
      SameMembers(c.rules, c'.rules);
      hide Before, Decide, Examine, Collect;
      CollectErrors(c.rules, s, known);
      CollectErrors(c'.rules, s, known);
      if Collect(c.rules, s, known).Success? {
        CollectIs(c.rules, s, known);
        CollectIs(c'.rules, s, known);
        FilterPermutes(c.rules, c'.rules, (r: Rule) => IsCandidateHere(r, s, known));
        MapPermutes(Filter(c.rules, (r: Rule) => IsCandidateHere(r, s, known)),
                    Filter(c'.rules, (r: Rule) => IsCandidateHere(r, s, known)), (r: Rule) => CandidateOf(r, s, known));
        DecideIsReordered(Collect(c.rules, s, known).value, Collect(c'.rules, s, known).value);
      }
    }
  }

  lemma {:induction false} CollectErrors(rules: seq<Rule>, s: Subject, known: map<Field, string>)
    ensures Collect(rules, s, known).Failure? ==> Collect(rules, s, known).error == InvalidMatchExpression
    decreases |rules|
  {
    if rules != [] {
      CollectErrors(rules[..|rules| - 1], s, known);
    }
  }
}
