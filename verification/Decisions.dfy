/** What a resolution depends on: two catalogues that show the resolver the same give the same decision. */
module Decisions {
  import opened Sequences
  import opened Evidence
  import opened Catalog

  function WithoutReason(t: TypeInfo): TypeInfo { t.(reason := NoReason) }

  /** A resolution apart from the reason it gives for the type. */
  function Unexplained(r: Resolution): Resolution { r.(typeInfo := WithoutReason(r.typeInfo)) }

  lemma {:induction false} SameDecision(rules: seq<Rule>, schemaVersion: nat, f: Facts, f': Facts, ev: AppEvidence,
                                        previous: AppClass)
    requires WithoutReason(f'.typeInfo) == WithoutReason(f.typeInfo) && f' == f.(typeInfo := f'.typeInfo)
    ensures Unexplained(ResolveFacts(rules, schemaVersion, f', ev, previous))
            == Unexplained(ResolveFacts(rules, schemaVersion, f, ev, previous))
  {
    hide Matches, SafeAutomatic, Filter, BestRules, Suggestions, Disagree;
    FilterAgree(rules, (r: Rule) => IsCandidate(schemaVersion, f.approved, f.ProductId(), f.typeInfo, ev, r),
                (r: Rule) => IsCandidate(schemaVersion, f'.approved, f'.ProductId(), f'.typeInfo, ev, r));
    var candidates := Candidates(rules, schemaVersion, f, ev);
    FilterAgree(candidates, (r: Rule) => DecidesAutomatically(schemaVersion, f.ProductId(), f.typeInfo, r),
                (r: Rule) => DecidesAutomatically(schemaVersion, f'.ProductId(), f'.typeInfo, r));
  }

  /** The child's resolution of the evidence finds the same in both catalogues; only the selectors of the
      identified product may differ. */
  ghost predicate SameView(k: Knowledge, k': Knowledge, child: string, ev: AppEvidence) {
    && k'.schemaVersion == k.schemaVersion && k'.rules == k.rules
    && ApprovedBy(k'.bindings, child) == ApprovedBy(k.bindings, child)
    && IdentifyProducts(k'.products, ev) == IdentifyProducts(k.products, ev)
    && (|IdentifyProducts(k.products, ev)| == 1 ==> SameProduct(k, k', child, IdentifyProducts(k.products, ev)[0]))
  }

  ghost predicate SameProduct(k: Knowledge, k': Knowledge, child: string, id: string) {
    && ChoiceFor(k'.bindings, child, id) == ChoiceFor(k.bindings, child, id)
    && FindProduct(k.products, id).Some? && FindProduct(k'.products, id).Some?
    && FindProduct(k'.products, id).value.type_ == FindProduct(k.products, id).value.type_
  }

  ghost predicate SameReason(k: Knowledge, k': Knowledge, ev: AppEvidence, id: string) {
    FindProduct(k.products, id).Some? && FindProduct(k'.products, id).Some?
    ==> ReasonFor(FindProduct(k'.products, id).value, ev) == ReasonFor(FindProduct(k.products, id).value, ev)
  }

  lemma {:induction false} SameViewDecides(k: Knowledge, k': Knowledge, child: string, ev: AppEvidence,
                                           previous: AppClass)
    requires SameView(k, k', child, ev)
    ensures Unexplained(ResolveApplication(k', child, ev, previous))
            == Unexplained(ResolveApplication(k, child, ev, previous))
    ensures (forall id :: IdentifyProducts(k.products, ev) == [id] ==> SameReason(k, k', ev, id))
            ==> ResolveApplication(k', child, ev, previous) == ResolveApplication(k, child, ev, previous)
  {
    hide ChoiceFor, ApprovedBy, FindProduct, IdentifyProducts, ReasonFor, ResolveFacts;
    var f, f' := FactsFor(k, child, ev), FactsFor(k', child, ev);
    var identified := IdentifyProducts(k.products, ev);
    if |identified| == 1 {
      assert identified == [identified[0]];
    }
    SameDecision(k.rules, k.schemaVersion, f, f', ev, previous);
  }
}
