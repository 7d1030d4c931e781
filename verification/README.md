# Application identity, catalogue editing and usage protocols

This project models the console and worker logic that decides what a program is, what class it has for a child, and how
long it may be used. It proves what users of that logic rely on.

- **Identification and classification** (`Evidence.dfy`, `Catalog.dfy`, `ResolutionCases.dfy`, `OrderIndependence.dfy`,
  `SelectorOrder.dfy`, `InstanceClassification.dfy`, `InstanceCases.dfy`, `Association.dfy`, `Ownership.dfy`). For identification and
  for automatic rules an identity field counts only when it is verified; exclusions and suggestions read it either way. A
  resolution is explicit, automatic, a suggestion, in conflict or unclassified. The three-valued resolver works on partial
  evidence, a union-find groups observations, and ownership rules replace the selectors of older catalogues.
- **Catalogue edits** (`Editing.dfy`, `EditConditions.dfy`, `EditingFacts.dfy`, `Merging.dfy`, `Splitting.dfy`, `Children.dfy`,
  `SplitDecisions.dfy`, `Unlinking.dfy`, `Integrity.dfy`, `Import.dfy`; `Decisions.dfy` says what a decision depends on).
  Each edit is a function or is proved against one, and lemmas say what the resolvers find after it, for all evidence and
  all children: which decisions stay, and which change.
- **Replies of the server** (`Receipts.dfy`, `ReceiptMeanings.dfy`), **the read cache** (`ReadCache.dfy`, `CacheOrder.dfy`), **retries**
  (`Network.dfy`) and **login recovery** (`Recovery.dfy`): acceptance as set equality, and safety over every interleaving or run.
- **Time and quotas** (`RestQuota.dfy`, `Foreground.dfy`, `Policy.dfy`, `Timeline.dfy`): conservation of rest time, bounded
  credit, normal forms of the weekly windows, and the timeline of a day.

`Common.dfy` holds option and result types, list operations, sorting and blank text.

## How to read it

Code that works by changing things step by step is a method or a class. Its contract equates the result with a specification
function, and the lemmas say what that function means, in each case in terms of the inputs and not of the function's own
helpers. Pure code is a function.
Attempts that the program ends with an exception return a `Failure`. Where loops run over a JavaScript `Map` the order is a
parameter, or the result is proved not to depend on it.

Six things the code does that a first reading may miss are kept and stated:

- A hit moves a cache entry to the end of the map, but refilling an expired key leaves it in its old place. So the entries
  are in the order of their last use, and eviction takes the least recently used ones, exactly as long as no refill has kept
  an old place (`CacheOrder.RunKeepsUseOrder`, `CacheOrder.EvictionIsByUse`); after one, the entry used last can go first
  (`CacheOrder.LastUsedIsEvicted`).
- A rest limit of 0 switches the daily lock off, so a borrowed hour is repaid under a lock only when the base exceeds 60
  minutes (`RestBorrowing.RepaymentIsEnforced`).
- A resume sets a new start point without crediting the time since the old one, so foreground time can be lost; how much
  is stated exactly (`ForegroundTime.OnlyRoundingIsLost`, `ForegroundTime.StepLosesOnlyRounding`).
- The worker can follow a page that the user does not look at: a window that gains the focus and shows a page of no site
  leaves it with the site it followed before, a tab activated in any other window replaces the page in front, and a worker
  that is woken again takes the window for focused and the user for active. Each credits a page with time it was not on
  screen (`ForegroundTime.SpecialPageIsCredited`, `ForegroundTime.TabBehindIsCredited`, `ForegroundTime.WokenWorkerCredits`).
  The blind events, with which the worker comes to follow such a page, are exactly the ones that end the bound
  (`ForegroundTime.BlindIsExact`); without one it holds (`ForegroundTime.CreditIsBounded`).
- A claimed identity that nothing vouches for cannot identify a product or satisfy an automatic rule, but it can switch one off, through
  the rule's exclusions (`SelectorOrder.ClaimsActThroughExclusions`, `SelectorOrder.ClaimSwitchesOffRule`).
- An explicit decision of another child can be lost in a split, and a split that is merged back can leave a choice that was
  not there before (`SplitDecisions.SplitKeepsExplicit`, `SplitDecisions.MergeBackRestores`).

Assumptions, each of which the catalogue validation or the caller provides: product ids are unique, a child has one binding and a
binding one choice per product, and new ids are not in use.

## Model

| member | source | states |
|---|---|---|
| Catalog.IdentifiedAre | app-runtime-management/contracts/application-classification.ts:655-659 | a product id is identified exactly when some product with that id has a selector of the evidence's platform that is safe for automatic use and matches verified values |
| ResolutionCases.ExpressionIs | app-runtime-management/contracts/application-classification.ts:638-654 | an expression holds when all, or any, of its conditions give the value the evidence has, from a verified field or a mere hint where that is asked for; it is safe when it cannot hold by the three hint fields alone |
| ResolutionCases.IdentificationIs | app-runtime-management/contracts/application-classification.ts:655-659 | the identified ids, ascending, are those of the products with a selector of the platform that cannot hold by hints alone and holds of what is verified |
| ResolutionCases.IdentityDecides | app-runtime-management/contracts/application-classification.ts:677-686 | several products are a conflict that leaves the class; the child's choice for the one product decides; otherwise the one product, if any, is reported |
| ResolutionCases.WinnersAre | app-runtime-management/contracts/application-classification.ts:688-701 | the rules that decide are exactly those acting rules than which no acting rule is stronger: product before family and developer alike, these before type |
| ResolutionCases.RulesDecide | app-runtime-management/contracts/application-classification.ts:687-706 | the deciding rules give their class if they agree and leave the previous class in conflict if not; without one, a suggestion leaves the previous class, and nothing is unclassified |
| ResolutionCases.RulesAreListed | app-runtime-management/contracts/application-classification.ts:695-706 | the deciding rules and the suggestions are listed by id, exactly these, ascending |
| ResolutionCases.TypeIs | app-runtime-management/contracts/application-classification.ts:660-673 | the type of the one identified product is confirmed unless unknown, for the reason its first identifying selector gives: distribution key before package id before anything else |
| OrderIndependence.ResolutionIsReordered | app-runtime-management/contracts/application-classification.ts:655-707 | permuting products, rules, bindings or choices leaves the whole resolution equal: product, class, status, rule ids, suggestions and type |
| Ordering.LessIs | app-runtime-management/contracts/application-classification.ts:695-698 | ids are compared by proper beginnings and by the first character that differs |
| OrderIndependence.BestRulesAre | app-runtime-management/contracts/application-classification.ts:699-700 | the rules that decide are all the automatic rules of the least rank, in ascending order of id |
| Catalog.ExplicitIs | app-runtime-management/contracts/application-classification.ts:683-686 | a resolution is explicit exactly when one product is identified and the child has a choice for it, and then carries the chosen class |
| InstanceClassification.ResolveProgramInstanceClassification | app-runtime-management/contracts/application-classification.ts:601-637 | the loop over rules, with its early refusals, computes the three-valued specification |
| InstanceCases.ScopeComesFirst | app-runtime-management/contracts/application-classification.ts:603-604 | a context or binding of another child is a scope error |
| InstanceCases.UnmappedIsUnknown | app-runtime-management/contracts/application-classification.ts:605-607 | without exactly one mapping that is confirmed, or without a catalogue version, the answer is unknown, without rules |
| InstanceCases.UnnamedIsRefused | app-runtime-management/contracts/application-classification.ts:608-609 | a mapping whose product the context does not hold exactly once is an error |
| InstanceCases.ChoiceDecides | app-runtime-management/contracts/application-classification.ts:610-613 | the child's one choice of the mapped product is the explicit answer, several are an error, and with none the rules are asked about this product, the approved ids and the platform |
| InstanceCases.EvaluateIs | app-runtime-management/contracts/application-classification.ts:585-595 | a condition is decided as soon as what is known settles it, and refused exactly when it has conditions and an unknown operator |
| InstanceCases.KnownIs | app-runtime-management/contracts/application-classification.ts:589 | of all fields only the binary hash can be known |
| InstanceCases.ExamineIs | app-runtime-management/contracts/application-classification.ts:615-627 | a rule is skipped, possible, certain or refused exactly as its state, its approval, its product, its condition and its exclusions say |
| InstanceCases.RefusalIs | app-runtime-management/contracts/application-classification.ts:615-627 | the resolution refuses exactly when a rule that is asked has an unreadable expression |
| InstanceCases.RulesDecide | app-runtime-management/contracts/application-classification.ts:629-637 | of the possible rules the strongest kind decides: unknown if one of them is not certain, conflict if they differ, else their class; the ids of all of them, ascending |
| InstanceClassification.EvaluateIsStable | app-runtime-management/contracts/application-classification.ts:585-595 | a condition that is decided stays decided when missing fields are supplied, and refuses the same expressions |
| InstanceClassification.DecidedIsStable | app-runtime-management/contracts/application-classification.ts:601-637 | any result other than unknown is final: no later evidence changes its status, class or rule ids |
| InstanceClassification.ResolveInWorld | app-runtime-management/contracts/application-classification.ts:601-637 | on complete evidence the three-valued resolver equals an independent two-valued definition |
| InstanceClassification.DecidedHoldsInEveryWorld | app-runtime-management/contracts/application-classification.ts:585-637 | a decided answer is the two-valued answer on every extension of the evidence, whether or not some fields stay absent |
| InstanceClassification.InstanceResolutionIsReordered | app-runtime-management/contracts/application-classification.ts:601-637 | the order of rules, products, items and choices never shows in the result |
| SelectorOrder.UnverifiedNeverIdentifies | app-runtime-management/contracts/application-classification.ts:644-659 | changing any unverified identity field, to whatever value, never changes which products are identified |
| SelectorOrder.OnlyTheReasonShows | app-runtime-management/contracts/application-classification.ts:660-707 | storing the selectors inside products in another order changes no part of any resolution except the reason given for the type |
| SelectorOrder.ReasonIsStable | app-runtime-management/contracts/application-classification.ts:666-671 | that reason is independent of the order exactly when all selectors that identify the evidence give the same reason |
| SelectorOrder.OrderCanShow | app-runtime-management/contracts/application-classification.ts:666-671 | a product and evidence for which the order of two selectors changes the reason |
| SelectorOrder.RuleIgnoresUnverified | app-runtime-management/contracts/application-classification.ts:687-693 | an unverified claim changes whether an automatic rule is a candidate exactly when the rule applies and the claim changes whether it is excluded |
| SelectorOrder.ClaimsActThroughExclusions | app-runtime-management/contracts/application-classification.ts:674-707 | an unverified claim that changes no exclusion verdict of an automatic rule changes nothing of an explicit, automatic or conflicting decision but the suggestions beside it, and makes none appear or vanish |
| SelectorOrder.ClaimSwitchesOffRule | app-runtime-management/contracts/application-classification.ts:692-693 | a catalogue and two reports of one verified binary in which a claimed package id switches off the rule that blocks it |
| Association.AssociateApplicationEvidence | app-runtime-management/contracts/application-classification.ts:453-468 | the union-find maps every observation to the least node of its connected component over admitted shared keys |
| Association.LinkedMeans | app-runtime-management/contracts/application-classification.ts:446-466 | two nodes are linked exactly when they have reports of one platform with the same identity, or the same verified distribution key, product key, hosted app id or package id, or the same verified executable of which all reports that verify a package name the same one |
| Association.NodeIs | app-runtime-management/contracts/application-classification.ts:454 | nodes are told apart exactly by platform and identity |
| Association.NodeText | app-runtime-management/contracts/application-classification.ts:454 | a node is the platform and the identity, on two lines |
| Association.RootsAfterJoin | app-runtime-management/contracts/application-classification.ts:455-456 | one union merges exactly the two trees, names the result by the lesser root, and keeps the parents a forest |
| Association.ComponentMapIsUnique | app-runtime-management/contracts/application-classification.ts:453-468 | the grouping depends only on the set of observations, not on order or repetition |
| Association.SharedKeyMeans | app-runtime-management/contracts/application-classification.ts:446-452 | two observations share a key exactly when they are on one platform and agree on the identity or on a verified value of one key field; keys of different kinds never collide |
| Ownership.OwnershipIs | app-runtime-management/contracts/application-classification.ts:315-329 | matching is confirmed, conflicting or unresolved exactly as the enabled matching rules name one, several or no products |
| Ownership.OwnershipRulesAre | app-runtime-management/contracts/application-classification.ts:315-329 | the reported rule ids are exactly those of the enabled rules that match, in ascending order |
| Ownership.RuleReads | app-runtime-management/contracts/application-classification.ts:317-324 | a matching rule needs every field it names at its value and reads no other; a signature rule needs both |
| Ownership.OwnershipIsReordered | app-runtime-management/contracts/application-classification.ts:315-329 | the order of the rules never shows in the result |
| LegacyConversion.LegacyOwnershipDraft | app-runtime-management/console/app-runtime-knowledge.js:64-93 | the nested loops compute the draft of rules and unconverted selectors, or refuse the catalogue |
| LegacyConversion.DraftedRulesAre | app-runtime-management/console/app-runtime-knowledge.js:70-88 | the drafted rules are exactly these: for each selector with the one condition binary hash (64 hex digits), or on Windows file series (64 hex digits) or package id (AUMID), an enabled rule of its product and platform for that value, under the id of its place |
| LegacyConversion.LeftoversAre | app-runtime-management/console/app-runtime-knowledge.js:70-88 | every other selector, and no other, is left over with its place |
| LegacyConversion.HashShapeIs | app-runtime-management/console/app-runtime-knowledge.js:69 | a hash is 64 lower-case hexadecimal digits |
| LegacyConversion.AumidShapeIs | app-runtime-management/console/app-runtime-knowledge.js:83 | an AUMID is two nonempty parts without spaces and control characters, joined by one exclamation mark, of at most 256 characters |
| LegacyConversion.RuleIdNames | app-runtime-management/console/app-runtime-knowledge.js:86 | the id of a drafted rule gives the places of its product and selector in decimal |
| LegacyConversion.RulesAre | app-runtime-management/console/app-runtime-knowledge.js:68-90 | a rule is drafted exactly for each place whose selector converts |
| LegacyConversion.UnconvertedAre | app-runtime-management/console/app-runtime-knowledge.js:68-90 | a selector is left over exactly when it does not convert |
| LegacyConversion.NothingIsLost | app-runtime-management/console/app-runtime-knowledge.js:68-90 | every selector lands in exactly one of the two lists |
| LegacyConversion.RuleIdsDistinct | app-runtime-management/console/app-runtime-knowledge.js:68-90 | no two drafted rules share an id, for any number of products and selectors |
| LegacyConversion.ConvertPreserves | app-runtime-management/console/app-runtime-knowledge.js:74-86 | a converted selector and its rule accept the same evidence |
| LegacyConversion.DraftPreservesIdentification | app-runtime-management/console/app-runtime-knowledge.js:64-93 | for all evidence, a product is identified before exactly when a drafted rule ties the verified fields to it or one of its unconverted selectors identifies it |
| LegacyConversion.FullConversionAgrees | app-runtime-management/contracts/application-classification.ts:315-329 | after a full conversion, ownership is confirmed, unresolved or disputed exactly when the old catalogue identified one, no or several products |
| EditConditions.MergeIsAccepted | app-runtime-management/console/app-runtime-knowledge.js:289-295 | a merge is accepted exactly for two different existing products of which no other child chose the source and whose classes for the child do not differ; which refusal comes first |
| EditConditions.MergeMakes | app-runtime-management/console/app-runtime-knowledge.js:296-301 | in the rules only the product changes, from source to target; the target keeps its name, its type and its selectors before those it takes over; the source is gone |
| EditConditions.SplitIsAccepted | app-runtime-management/console/app-runtime-knowledge.js:303-306 | a split is accepted exactly for an existing selector that is not the last, under a name that is not blank; which refusal comes first |
| EditConditions.SplitMakes | app-runtime-management/console/app-runtime-knowledge.js:307-311 | the new product has the trimmed name, the type and the one selector; the original keeps the others in order; the rules stay |
| EditConditions.UnlinkIsAccepted | app-runtime-management/console/app-runtime-knowledge.js:355-360 | an unlink is accepted exactly for an existing selector which, if it is the last, no rule and no other child refers to; which refusal comes first |
| EditConditions.ConfirmIsAccepted | app-runtime-management/console/app-runtime-knowledge.js:266-271 | a confirmation is accepted exactly for evidence with a reliable identity in the scope, an existing product or a name that is not blank, and a class if there are children; which refusal comes first |
| EditConditions.ConfirmMakes | app-runtime-management/console/app-runtime-knowledge.js:266-273 | a new product has the trimmed name, the type and the selector; an existing one gains the selector at the end unless it has it, and keeps the rest |
| EditConditions.SelectorIs | app-runtime-management/console/app-runtime-knowledge.js:247-257 | which fields the selector asks for in each scope, in which order of preference, and when there is none |
| EditConditions.EnhancedSurvives | app-runtime-management/console/app-runtime-knowledge.js:258-265 | enhanced blocking survives a classification exactly when the new class is blocked |
| EditConditions.ReviseMakes | app-runtime-management/console/app-runtime-knowledge.js:334-338 | a revision adds the rule at the end and keeps rules and products |
| EditConditions.ToggleIsAccepted | app-runtime-management/console/app-runtime-knowledge.js:339-346 | a toggle is accepted exactly for an existing rule |
| EditConditions.TrimIs | app-runtime-management/console/app-runtime-knowledge.js:307 | trimming takes the spaces at both ends and nothing else |
| Editing.MergeProducts | app-runtime-management/console/app-runtime-knowledge.js:289-302 | the loops over selectors, bindings and rules compute the merged catalogue or the same refusal |
| Merging.MergeRenames | app-runtime-management/console/app-runtime-knowledge.js:289-302 | for all evidence, identification after a merge is identification before it with the source renamed to the target |
| Merging.ChoiceAfterMerge | app-runtime-management/console/app-runtime-knowledge.js:294-299 | which choice every child has for every product after a merge; approvals stay |
| Merging.MergeKeepsExplicit | app-runtime-management/console/app-runtime-knowledge.js:289-302 | every explicit decision of every child on all evidence is explicit with the same class after a merge |
| Merging.MergeKeepsOthers | app-runtime-management/console/app-runtime-knowledge.js:289-302 | evidence that identified neither product resolves identically for every child |
| Splitting.SplitDividesEvidence | app-runtime-management/console/app-runtime-knowledge.js:303-312 | evidence identified the original before exactly when it identifies the original or the new product after; other products are untouched |
| Splitting.SplitConservesSelectors | app-runtime-management/console/app-runtime-knowledge.js:303-312 | the multiset of all selectors stays the same |
| Splitting.SplitThenMerge | app-runtime-management/console/app-runtime-knowledge.js:289-312 | merging the new product back is accepted exactly when the child had no choice of the original or one of the same class, and then restores identification for all evidence |
| SplitDecisions.SplitKeepsOthers | app-runtime-management/console/app-runtime-knowledge.js:303-312 | evidence that the moved selector does not identify resolves exactly as before, for every child |
| SplitDecisions.SplitTakesMoved | app-runtime-management/console/app-runtime-knowledge.js:303-312 | evidence that identified only the original, through the moved selector, is in conflict for every child while another selector still identifies the original; otherwise it is the new product, explicit for the child of the split alone |
| SplitDecisions.SplitKeepsExplicit | app-runtime-management/console/app-runtime-knowledge.js:303-312 | an explicit decision of any child survives a split with its class exactly when the moved selector does not identify the evidence, or it alone does and the split is for this child with this class |
| SplitDecisions.ChoiceAfterBack | app-runtime-management/console/app-runtime-knowledge.js:289-312 | after a split and the merge that takes it back, every choice is as before, except that the child of the split has one of the original even if it had none |
| SplitDecisions.MergeBackRestores | app-runtime-management/console/app-runtime-knowledge.js:289-312 | split and merge restore a resolution, but for the reason of the type, exactly unless it is that of the child of the split, without a choice of the original before, on evidence of the original alone |
| Unlinking.UnlinkIdentification | app-runtime-management/console/app-runtime-knowledge.js:355-363 | after an unlink the product is identified exactly by its other selectors, and every other product as before |
| Unlinking.ChoiceAfterUnlink | app-runtime-management/console/app-runtime-knowledge.js:355-363 | approvals and choices of other products stay for every child; choices of the product stay with the product, and none is left when it goes |
| Unlinking.UnlinkKeepsOthers | app-runtime-management/console/app-runtime-knowledge.js:355-363 | evidence that the removed selector does not identify resolves exactly as before, for every child |
| Unlinking.UnlinkKeepsShared | app-runtime-management/console/app-runtime-knowledge.js:355-363 | evidence that another selector of the product identifies too resolves as before, but for the reason of the type |
| Unlinking.UnlinkKeepsExplicit | app-runtime-management/console/app-runtime-knowledge.js:355-363 | an explicit decision survives an unlink with its class exactly when the removed selector does not identify the evidence or another selector of the product does |
| Editing.ConfirmProduct | app-runtime-management/console/app-runtime-knowledge.js:266-273 | the confirmation with its loop over children computes the confirmed catalogue or the same refusal |
| Children.ConfirmThenRecognised | app-runtime-management/console/app-runtime-knowledge.js:247-273 | confirmed evidence is recognised as the product; the selector adds exactly what it identifies to that product and removes nothing; the listed children, and only they, get the chosen class |
| Children.SelectorRecognises | app-runtime-management/console/app-runtime-knowledge.js:247-257 | the selector built from an observation identifies that observation |
| Editing.ClassifyChildren | app-runtime-management/console/app-runtime-knowledge.js:258-273 | the loop over children computes the classification of all of them, or stops at the first refusal |
| Children.ClassifyReaches | app-runtime-management/console/app-runtime-knowledge.js:258-265 | classifying changes the choice of one product for the listed children and nothing else |
| Editing.ReviseRule | app-runtime-management/console/app-runtime-knowledge.js:334-338 | the loop over children computes the revised catalogue |
| Children.ReviseLeavesOthers | app-runtime-management/console/app-runtime-knowledge.js:334-338 | revising a rule for chosen children leaves every resolution of every other child equal |
| Children.FreshRuleIsUnapproved | app-runtime-management/contracts/application-knowledge-validation.ts:108-119 | in a published catalogue no child has approved a rule id that does not exist, which is what the two rows on other children ask of a new id |
| Children.ReviseReapproves | app-runtime-management/console/app-runtime-knowledge.js:334-338 | each chosen child approves the new rule in place of the old one and keeps its product choices |
| Children.ToggleReaches | app-runtime-management/console/app-runtime-knowledge.js:339-346 | which rules exist and who approves them after a toggle |
| Children.ToggleLeavesOthers | app-runtime-management/console/app-runtime-knowledge.js:339-346 | toggling an approval leaves every resolution of every other child equal |
| Children.ToggleTwiceRestores | app-runtime-management/console/app-runtime-knowledge.js:339-346 | toggling an enabled rule twice restores every resolution |
| Editing.UnlinkVariant | app-runtime-management/console/app-runtime-knowledge.js:355-363 | removing a selector, or a product with its last one, computes the unlinked catalogue or the same refusal |
| Integrity.StepKeepsIntegrity | app-runtime-management/console/app-runtime-knowledge.js:258-363 | every edit keeps the catalogue well formed: unique ids, no dangling product or rule reference, at least one selector per product |
| Integrity.IntegrityMeans | app-runtime-management/contracts/application-knowledge-validation.ts:60-128 | in a well-formed catalogue ids are unique, every product has a selector, none rests on hints alone, and every product or rule referred to exists |
| Integrity.RunKeepsIntegrity | app-runtime-management/console/app-runtime-knowledge.js:648-686 | every catalogue of every run of edits that the console offers is well formed |
| CatalogImport.CatalogImportDiff | app-runtime-management/console/app-runtime-knowledge.js:209-226 | the difference is refused or computed exactly as specified |
| CatalogImport.ApplyCatalogImport | app-runtime-management/console/app-runtime-knowledge.js:227-245 | an accepted selection produces the specified catalogue; every other selection is refused |
| CatalogImport.DifferencesAre | app-runtime-management/console/app-runtime-knowledge.js:209-226 | the differences are exactly the incoming entries that the catalogue does not hold as they are, under name or id, told apart by whether it has the id |
| CatalogImport.SelectionIsAccepted | app-runtime-management/console/app-runtime-knowledge.js:227-231 | a selection is applied exactly when it is of comparable catalogues, not empty, for a child, of differences only, and of no rule that another child would find changed |
| CatalogImport.SelectedRulesAre | app-runtime-management/console/app-runtime-knowledge.js:241-243 | the rules to approve are the incoming ones that are selected |
| CatalogImport.IdIs | app-runtime-management/console/app-runtime-knowledge.js:219 | an id is 1 to 256 letters, digits, points, underscores, colons and hyphens |
| CatalogImport.ComparableMeans | app-runtime-management/console/app-runtime-knowledge.js:210-222 | two catalogues of schema 4 are comparable exactly when the incoming one has at most 1000 entries of each kind under different valid ids |
| CatalogImport.ApprovingAppends | app-runtime-management/console/app-runtime-knowledge.js:241-243 | approvals that are there stay first, and none is listed twice |
| CatalogImport.RediffShowsTheRest | app-runtime-management/console/app-runtime-knowledge.js:209-245 | comparing the same file again after applying a selection gives exactly the earlier differences that were not selected, in their order |
| CatalogImport.ApplyAllLeavesNothing | app-runtime-management/console/app-runtime-knowledge.js:209-245 | after applying every difference none is left |
| CatalogImport.UnselectedStay | app-runtime-management/console/app-runtime-knowledge.js:232-240 | entries that were not selected are unchanged and keep their order |
| CatalogImport.ImportLeavesOtherChildren | app-runtime-management/console/app-runtime-knowledge.js:227-245 | another child keeps its binding, and every existing rule it approved stays as it was |
| CatalogImport.ImporterApproves | app-runtime-management/console/app-runtime-knowledge.js:227-245 | the importing child approves its earlier rules and the selected ones, and its product choices stay |
| Receipts.ParseRegistrationReceipt | app-runtime-management/contracts/application-classification.ts:18-37 | accepted exactly when the receipt is a one-to-one cover of what was sent: no revision regresses and an equal revision has an equal hash |
| Receipts.EveryPermutationCovers | app-runtime-management/contracts/application-classification.ts:18-37 | every permutation of exactly what was sent is an acceptable cover |
| Receipts.ParseInstallationLinkBatch | app-runtime-management/contracts/application-classification.ts:129-151 | accepted exactly when it is a batch of 1 to 100 different valid links of the scope |
| Receipts.ParseInstallationLinkReceipt | app-runtime-management/contracts/application-classification.ts:152-163 | accepted exactly when it lists the links of a valid batch, each once, in any order |
| Receipts.EveryLinkOrderIsAccepted | app-runtime-management/contracts/application-classification.ts:152-163 | every permutation of a valid batch is an acceptable receipt |
| Receipts.ParseMappingReadResponse | app-runtime-management/contracts/application-classification.ts:164-206 | accepted exactly when the request is valid, the items cover the requested instances once each, and the products are exactly the confirmed ones; the items and products are then returned as they came |
| ReceiptMeanings.CoversMeans | app-runtime-management/contracts/application-classification.ts:25-35 | received and sent items are the same instances one by one, each well shaped, of a later revision or of the same one with the same hash |
| ReceiptMeanings.SentMeans | app-runtime-management/contracts/application-classification.ts:20-23 | what can be waited for: at most 100 well shaped registrations of different instances |
| ReceiptMeanings.BatchMeans | app-runtime-management/contracts/application-classification.ts:129-151 | a batch field by field: scope, 1 to 100 links, shapes, all different |
| ReceiptMeanings.RequestMeans | app-runtime-management/contracts/application-classification.ts:164-172 | a request field by field: 1 to 100 different instances of one user |
| ReceiptMeanings.AnswersMeans | app-runtime-management/contracts/application-classification.ts:173-206 | a response field by field: products and items acceptable, instances as requested, every product that of a confirmed item; pending only before there is a catalogue |
| CacheProtocol.RunKeepsInv | app-runtime-management/console/computer-usage-view.js:210-226 | in every interleaving: pending requests carry the current epoch, keys are stored once, the size limit holds, and every entry holds an answer to a request for its key |
| CacheProtocol.CurrentHasEpoch | app-runtime-management/console/computer-usage-view.js:218-221 | the epoch test before a write is implied by the test that the request is still pending |
| CacheProtocol.NothingCrossesABarrier | app-runtime-management/console/computer-usage-view.js:210-226 | what a read returns after a clear, an authentication failure or a refresh of its key comes from a loader started at the barrier or later |
| CacheProtocol.SupersededNeverWrites | app-runtime-management/console/computer-usage-view.js:219-222 | a superseded request never writes an entry, whatever happens in between |
| CacheProtocol.SupersededRemovesNothing | app-runtime-management/console/computer-usage-view.js:223-224 | a superseded request never removes its successor from the pending requests |
| CacheProtocol.StoredSurvives | app-runtime-management/console/computer-usage-view.js:220 | with room for one entry, a stored value survives its own eviction pass, also when its key keeps an old place |
| CacheProtocol.StoredIsHit | app-runtime-management/console/computer-usage-view.js:214-221 | a stored value is a hit for the next read within its time to live |
| CacheProtocol.ReadAnswers | app-runtime-management/console/computer-usage-view.js:212-225 | a read without refresh is a hit exactly on an entry of its key younger than the time to live, else joins exactly the pending request of its key, else makes a new one; a refresh always makes one; what else of the cache stays |
| CacheProtocol.FailureIsForgotten | app-runtime-management/console/computer-usage-view.js:222-223 | a failure is never served again: the next read asks anew, after an authentication failure or a clear for every key |
| CacheProtocol.AnswerIsStored | app-runtime-management/console/computer-usage-view.js:218-221 | an answer is stored exactly when it may be cached and its request is still pending, and displaces nothing while there is room |
| CacheProtocol.EntriesSatisfy | app-runtime-management/console/computer-usage-view.js:210-226 | a property that every cacheable answer has of its key holds of every entry in every run |
| CacheOrder.StepKeepsUseOrder | app-runtime-management/console/computer-usage-view.js:212-221 | from entries in the order of their last use, exactly a refill that keeps an old place leaves that order |
| CacheOrder.RunKeepsUseOrder | app-runtime-management/console/computer-usage-view.js:210-226 | in every run the entries are in the order of their last use up to a point exactly when no refill before it has kept an old place |
| CacheOrder.EvictionIsByUse | app-runtime-management/console/computer-usage-view.js:220 | whatever number of new keys is stored next, only the least recently used entries go, exactly when the entries are in the order of their last use |
| CacheOrder.LastUsedIsEvicted | app-runtime-management/console/computer-usage-view.js:215-220 | a run of a cache for two entries in which the entry used last is evicted and the older one stays |
| ReadCaches.ReadCache.ReadKey | app-runtime-management/console/computer-usage-view.js:212-225 | one read computes the read step: refresh, hit, joined request or new request |
| ReadCaches.ReadCache.LoaderResolves | app-runtime-management/console/computer-usage-view.js:218-221 | an answer is written and the oldest entries evicted as in the protocol step |
| ReadCaches.ReadCache.LoaderRejects | app-runtime-management/console/computer-usage-view.js:222 | a 401 or 403 forgets everything and starts an epoch |
| ReadCaches.ReadCache.RequestFinishes | app-runtime-management/console/computer-usage-view.js:223 | a finished request leaves the pending map only if it is still the pending one |
| ReadCaches.ReadCache.Clear | app-runtime-management/console/computer-usage-view.js:213 | a clear starts an epoch and forgets entries and pending requests |
| ReadSession.SessionServesItsScope | app-runtime-management/console/computer-usage-view.js:228-242 | in every run, whatever the time to live and the size, a cached answer is a complete bundle of the very scope that is read |
| ReadSession.CheckedIs | app-runtime-management/console/computer-usage-view.js:232-236 | the loader lets through exactly the bundles of the dates whose snapshot is of the child, the dates and the revision named, and tells which check failed |
| RestBorrowing.WeekIsConserved | background-old.js:789-810 | over every Monday-to-Sunday week the end-of-day limits sum to exactly seven times the base |
| RestBorrowing.BorrowIsGranted | background-old.js:2234-2269 | a borrow is granted exactly without an outstanding one, not on a Sunday, and while the week is not used up; it is of an hour, or the base if less; each refusal |
| RestBorrowing.BorrowMovesTime | background-old.js:789-810 | a borrow raises the limit of its day and lowers that of the next by the same, and no other |
| RestBorrowing.BaseIs | background-old.js:790 | a missing setting allows two hours a day |
| RestBorrowing.ResetCloses | background-old.js:1993-2034 | only a forced reset or the first one of a day does anything; it closes a borrow exactly when the day after it has passed |
| RestWorker.LocksAfter | background-old.js:2263-2266 | a grant lifts the locks on resting and no other; a new day lifts all |
| RestBorrowing.LimitsTelescope | background-old.js:789-810 | over any stretch of days the limits sum to the base per day, up to the loans open at its two ends |
| RestBorrowing.WithinOneHour | background-old.js:2234-2269 | any run of n days allows n times the base to within 60 minutes |
| RestBorrowing.GrantsAreApart | background-old.js:2021-2030 | at most one borrow is outstanding: a second grant comes at the earliest two days later |
| RestBorrowing.RepaymentIsEnforced | background-old.js:1802 | on the repayment day a daily lock exists exactly when the base exceeds 60 minutes, because a limit of 0 means no lock |
| RestWorker.RestWorker.BorrowRestQuota | background-old.js:2234-2269 | the handler performs the borrow step, with the same four answers; a grant lifts the lock on resting |
| RestWorker.RestWorker.ResetDailyLockedDomains | background-old.js:1993-2034 | the daily reset closes a borrow exactly after its repayment day, and lifts all locks and locked sites, once a day unless forced |
| ForegroundTime.StepKeepsInv | background-old.js:1335-1386 | after every handler a start point is set exactly when the window is focused, the user is not idle and the page is known |
| ForegroundTime.OnlyRoundingIsLost | background-old.js:1335-1386 | in every run the credit of a domain and the time dropped by bare restarts and stopped workers add up to the time the worker watched it, less at most 999 ms for each event |
| ForegroundTime.StepLosesOnlyRounding | background-old.js:1348-1352 | an event loses no more than rounding exactly when it drops no running time, or no more than 999 ms of it |
| ForegroundTime.RestartLosesTime | background-old.js:1674-1696 | a run of a started worker in which a bare restart, on a change to a settings page, drops 90 watched seconds |
| ForegroundTime.NextFollows | background-old.js:1556-1696 | which tab, domain, focus and idleness the worker goes by after each event |
| ForegroundTime.StepKeepsSafe | background-old.js:1556-1696 | from a state in which nothing can be credited wrongly yet, exactly a blind event leaves such states, and exactly a misleading one makes the worker watch at once what the user does not look at |
| ForegroundTime.StepRestoresTracking | background-old.js:1580-1696 | from any state, activating a tab in front or focusing a window that shows a site puts right the page, a change of focus the focus, and a change of idleness the idleness |
| ForegroundTime.StartedFollows | background-old.js:1457-1475 | a started worker follows the page of the focused window if it shows a site, and has credited nothing |
| ForegroundTime.CreditIsExplained | background-old.js:1335-1386 | in every run credit, dropped time and missed time on screen add up to the time on screen and the time astray, to within 999 ms for each event |
| ForegroundTime.CreditIsBounded | background-old.js:1335-1386 | in every run of a started worker without a blind event, the seconds credited to a domain never exceed the time it was on screen in a focused window with the user not idle |
| ForegroundTime.BlindIsExact | background-old.js:1611-1696 | that bound survives an event in every continuation exactly when the event is not blind |
| ForegroundTime.SpecialPageIsCredited | background-old.js:1674-1696 | a run of a started worker that credits a site with 90 seconds of a settings page |
| ForegroundTime.TabBehindIsCredited | background-old.js:1611-1626 | a run of a started worker that credits a tab activated behind with 60 seconds of the page in front |
| ForegroundTime.WokenWorkerCredits | background-old.js:1278-1282 | a run in which a worker woken without a focused window credits a site with 60 seconds |
| ForegroundTimer.ForegroundTimer.Wake | background-old.js:1278-1282 | a worker that is woken has the defaults of the module and only the stored statistics |
| ForegroundTimer.ForegroundTimer.OnTabActivated | background-old.js:1611-1626 | activating a tab of any window flushes, follows the tab and resumes |
| ForegroundTimer.ForegroundTimer.FlushActiveTime | background-old.js:1335-1343 | crediting and clearing the start point is the flush of the specification |
| ForegroundTimer.ForegroundTimer.HandleTickTimer | background-old.js:1368-1386 | the tick credits whole seconds and restarts only while watching |
| ForegroundTimer.ForegroundTimer.OnFocusGained | background-old.js:1674-1696 | gaining focus flushes only when the page changed, then resumes |
| ForegroundTimer.ForegroundTimer.OnTabUpdated | background-old.js:1634-1655 | a navigation of the active tab to another domain flushes and resumes; any other navigation does nothing |
| ForegroundTimer.ForegroundTimer.OnIdleStateChanged | background-old.js:1580-1588 | going idle flushes; becoming active resumes without a flush |
| TimeWindows.ClockRoundTrips | app-runtime-management/console/app-runtime-policy.js:44-49 | each minute of the day is read from exactly one text, its HH:mm form, and 1440 only from 24:00 where the end of the day is allowed |
| TimeWindows.SpanIs | app-runtime-management/console/app-runtime-policy.js:59-62 | a window is accepted exactly when both ends are times of the day in order; only its end may be 24:00 |
| TimeWindows.NormalizeWindows | app-runtime-management/console/app-runtime-policy.js:59-67 | parsing, sorting and the neighbour test compute the normal form or the same refusal |
| TimeWindows.AcceptedIs | app-runtime-management/console/app-runtime-policy.js:59-67 | a list of windows is accepted exactly when each is well formed and no two of them overlap |
| TimeWindows.NormalizedIsStable | app-runtime-management/console/app-runtime-policy.js:50-71 | the normal form lists the same windows, and normalising it again changes nothing |
| TimeWindows.NormalizedIsInOrder | app-runtime-management/console/app-runtime-policy.js:63-67 | in the normal form each window ends before the next begins |
| TimeWindows.WithinTheDay | app-runtime-management/console/app-runtime-policy.js:50-71 | the windows of one category of a day add up to at most 1440 minutes |
| Policies.NormalizeTimeWindows | app-runtime-management/console/app-runtime-policy.js:50-71 | every slot of the week must be present and acceptable; the result holds the normal form of each |
| Policies.Normalize | app-runtime-management/console/app-runtime-policy.js:24-43 | the whole policy is accepted exactly when its windows are, and the result is the specified normal form |
| Policies.NormalFormIs | app-runtime-management/console/app-runtime-policy.js:24-43 | the normal form lists exactly the supported classifications and all application quotas, each in key order, and keeps the weekly limit |
| Policies.DailyLimitsAre | app-runtime-management/console/app-runtime-policy.js:31-34 | given daily limits stay, and of the others exactly the four scheduled categories are there without a limit |
| Policies.WeekIs | app-runtime-management/console/app-runtime-policy.js:50-71 | a policy without windows is open all day in each of the 28 slots; otherwise each slot holds the normal form of its own windows |
| Policies.KeyIs | app-runtime-management/console/app-runtime-policy.js:23 | two supported classifications have the same key exactly for the same platform and identity |
| Policies.ItemIs | app-runtime-management/console/app-runtime-policy.js:77-82 | the new entry names the application by its display name if that is not empty |
| Policies.ImportTakes | app-runtime-management/console/app-runtime-policy.js:99-102 | schema 3 takes classifications and application quotas and keeps all else; schema 2 takes everything; schema 1 everything but windows, which are open |
| Policies.NormalizingIsIdempotent | app-runtime-management/console/app-runtime-policy.js:24-71 | normalising a normalised policy is accepted and changes nothing, for every total preorder on keys |
| Policies.Classify | app-runtime-management/console/app-runtime-policy.js:72-84 | classifying is refused exactly for an unknown class or unacceptable windows |
| Policies.ClassifyReplaces | app-runtime-management/console/app-runtime-policy.js:72-84 | the key gets the class (or none, for an application the policy does not accept), and every other key, the quotas and the windows stay |
| Policies.ImportDiff | app-runtime-management/console/app-runtime-policy.js:96-113 | refused exactly for an unsupported file or unacceptable windows; otherwise the counts are the sizes of the added, changed and removed keys |
| Policies.CountsBalance | app-runtime-management/console/app-runtime-policy.js:103-107 | keys after = keys before + added - removed, and nothing is counted exactly when both maps are equal |
| Policies.ExportRoundTrips | app-runtime-management/console/app-runtime-policy.js:91-113 | importing one's own export is accepted and changes nothing |
| Timeline.BuildTodayTimelineSegments | extension/message-router.js:76-110 | the loop computes one segment for each END that closes an eligible START |
| Timeline.SegmentsAreThePairs | extension/message-router.js:76-110 | there is exactly one segment, in the order of the ENDs, for each pair of the latest START and the next END that is ACTIVE, names a domain that is not blank and has at least one whole second in the day |
| Timeline.ListedIs | extension/message-router.js:84-104 | a pair is listed exactly when its START is ACTIVE, its domain is not blank and at least one second lies between the two within the day; the segment names state and domain |
| Timeline.SegmentWithin | extension/message-router.js:94-103 | a segment starts at the later of START and midnight, and ends within the pair and the day, less than a second short |
| Timeline.OverlapIsExact | extension/message-router.js:76-110 | on any log the segments are in order and never overlap exactly when each listed pair opens, within the day, no earlier than the whole seconds of the pair listed before it are over |
| Timeline.SegmentsAreDisjoint | extension/message-router.js:76-110 | on a log in order of time the segments are in order and never overlap |
| Timeline.EachIsInDay | extension/message-router.js:70-110 | no segment leaves the day, whatever the order of the log |
| Timeline.WithinTheDay | extension/message-router.js:70-110 | on a log in order of time all segments together do not exceed the day |
| Timeline.OrderIsNeeded | extension/message-router.js:79-91 | a log out of order for which the segments overlap |
| RequestRetry.RequestJson | app-runtime-management/console/app-runtime-network.js:15-72 | the loop with its two flags computes the recursive specification |
| RequestRetry.EveryRequestIsBounded | app-runtime-management/console/app-runtime-network.js:15-72 | whatever token source and server answer: at most 3 fetches and 3 ordinary token requests for GET and 2 of each otherwise, at most 1 forced one, every fetch carries the token just obtained, and the outcome tells the last call |
| RequestRetry.WritesAreNotResent | app-runtime-management/console/app-runtime-network.js:48-54 | a request other than GET is never sent again after a fetch that got no answer |
| RecoveryProtocol.RedirectsAreSeparated | app-runtime-management/console/app-runtime-session.js:51-79 | across documents any two redirects are separated by a protected load that succeeded in a document that was never rejected and whose removal of the marker worked, however often the storage fails |
| RecoveryProtocol.RedirectsOncePerDocument | app-runtime-management/console/app-runtime-session.js:52-72 | a document redirects at most once |
| RecoveryProtocol.RedirectLeaves | app-runtime-management/console/app-runtime-session.js:60-73 | a redirect removes the session, as far as the storage lets it, and leaves the marker; any other outcome leaves the session |
| RecoveryProtocol.RecoversWhenClear | app-runtime-management/console/app-runtime-session.js:60-77 | with a working storage a document redirects exactly when it has not done so and every earlier redirect was followed by a clean load |
| RecoveryObject.Recovery.Recover | app-runtime-management/console/app-runtime-session.js:60-73 | the method performs the recovery step on its flags and the shared storage |
| RecoveryObject.Recovery.ProtectedLoadSucceeded | app-runtime-management/console/app-runtime-session.js:74-77 | the marker is removed exactly when this document was never rejected and the storage does so |

## Left out

- OrderIndependence.ResolutionIsReordered: the selectors inside a product keep their order here; what their order decides is the subject of `SelectorOrder`.
- Integrity.RunKeepsIntegrity: applying an import is not a step of a run, because what keeps its result consistent is validation on the server, which is not part of this model.
- Integrity.StepKeepsIntegrity: classifying asks for a product of the catalogue and revising for a valid rule with a new id, as the console's dialogs supply them; the edits themselves do not look.
- LegacyConversion.DraftPreservesIdentification: which verified fields of a legacy report answer which field of ownership evidence is fixed here by `VerifiedPart`; the code has no function for it.
- CacheProtocol.NothingCrossesABarrier: promises are request numbers, and each handler runs without interruption, as in the event loop.
- ForegroundTime.CreditIsBounded: every handler is taken as one step at one time, and the clock is positive and never goes back; an interleaving at an `await` inside a handler is not modelled, nor is the split of the credited seconds by calendar day. What the browser reports of focus and idleness is taken as true when it is reported; a change it does not report is the event `Unseen`.
- RestWorker.RestWorker.BorrowRestQuota: saving the configuration and updating the blocking rules of the browser are not modelled.
- RestBorrowing.WeekIsConserved: the base is constant over the run and a calendar date is a day number, so daylight saving and changes of the setting are not covered.
- Timeline.BuildTodayTimelineSegments: times are real numbers; infinite times and the rounding of floating point are not modelled.
- RecoveryProtocol.RedirectsAreSeparated: a read of the storage returns what it holds or throws, a write or a removal works, is dropped or throws, and nobody else writes the marker during a run.
- RequestRetry.RequestJson: the text of an error, its code and the rejection of a body that is not JSON are not modelled; the message for an unreachable service is in English.
- Policies.Normalize: `localeCompare` is any total preorder on keys, sorting is stable, and the version, effective time and unknown properties of a policy are not modelled.
- Policies.ImportDiff: the comparison of quotas and windows as JSON text is equality of values.
- CatalogImport.CatalogImportDiff: the remaining properties of an entry are one value that is only compared.
- Strings are sequences of Unicode scalar values without normalisation, so lengths and order differ from those of UTF-16 code units beyond U+FFFF; checks on hashes and package ids are the written character classes.
- Enhanced blocking, suspected matchers, catalogue groups, and the names, sources and reasons of rules: they take no part in a decision modelled here.
- `buildProgramInstanceProductMapping` and the validation of ownership rules: one pass over valid input that adds nothing to ownership matching.
- Background media time ("condition B"), visit sessions, and the lock and unlock of single sites: the code does not keep media time apart from foreground time.
- The current router refuses borrowing, so the rest protocol is that of the older worker.
- Rendering, dialogs, storage, alarms, fetching and hashing.
