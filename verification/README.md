# Verified model of the RunenGPU admission and validation layer

This project models the decisions that RunenGPU's backend-neutral API makes before any GPU work is
recorded, and proves what those decisions guarantee. Check it with `dafny verify dfyconfig.toml`.

The model has seven parts.

* **Context requests.** `Capability`, `Preference` and `Descriptor` model the requirement maps, the
  ranked backend preferences and the descriptor merge. `MergeAlgebra` and `MergeGrouping` give the laws
  of the merge and say exactly where they stop. Merge commutes on every descriptor. The empty request is
  a unit, and a request is its own merge, exactly for the valid requests whose preference ranks have no
  gaps. Merge is not associative on all valid requests, because it renumbers ranks: the two groupings of
  three valid requests agree exactly if the requests contradict each other apart from their preferences,
  or a preference falls outside the common allowlist, or the three preferences satisfy a stated case
  condition on which are empty, equal, or the renumbering of another; ranks without gaps always do. Raw
  capability requirements do not merge associatively either, and the shapes that break single
  requirements and whole sets are named. They cannot arise between valid descriptors because each
  feature has a single valid fallback.
* **Admission.** `Admission` models the eleven checks of a candidate in their order, the
  feature-dependent workload budget and the re-check of the created device. `AdmissionMonotone` relates
  admission to merging: an adapter admitted for a merge is admitted for one operand exactly when it also
  reaches the limits of that operand which the other side had capped below its own demand. A
  `permit_limit` cap can therefore turn a rejected adapter into an admitted one, and a witness shows it.
* **Subresources and pass usage.** `TextureFormat`, `Resource` and `Access` give ranges their meaning
  as sets of (mip, layer, plane) points and show the interval and aspect code exact. `PassUsage` shows
  that the pairwise validator decides a statement about single points; `RenderPass` carries it through
  the pass constructor.
* **Byte arithmetic.** `CopyLayout` treats the coverage the copy constructor checks, the footprint derived
  from a copy, the prepared texture size and the tightly packed length as four formulas for one shape:
  exact, injective, equal where they should be, and minimal. `RenderDraw` shows vertex and index fetch checks exact, and draw
  construction a function of the unordered collection of vertex bindings.
* **Work order.** `Hazards` models dependency inference, `ExplicitOrders` the admission of stated
  orders, `NodeOrder` the topological ordering. `WorkMeaning` gives nodes an effect on memory, proves
  that the prepared order leaves the memory the authored order leaves for all effects that stay within
  the declared accesses, and says exactly when a fragment can be prepared. `DependencyNecessity` shows
  the converse: between two nodes that write, every inferred dependency orders some work that needs it.
* **Surface lease.** `SurfaceLease` models the compare-and-exchange disposition, the counted owner, and
  the last owner's drop as separate steps, over every interleaving.
* **Resource identities.** `ResourceId` models the shared scope counter as a retry loop and any number
  of local allocators, over every interleaving.

`Common`, `Arithmetic`, `Lists` and `Sorting` hold what several parts share.

How the model is stated:

* Fixed-width integers are subset types and every checked operation is written out.
* A source enumeration that is used as an ordered key (features, limit kinds, alignment kinds, backend
  families) is its position in declaration order, so key order is numeric order.
* Facts that other constructors establish about a value (a nonzero copy extent, a draw range that ends
  inside 32 bits, a view inside its parent) are subset types or named predicates. A handle's identity
  determines its descriptor.
* What an operation decides through tables and helper checks is stated a second time on the fields of
  its inputs, in the terms a caller would use: `RenderPassRules`, `RenderDrawRules`, `AdmissionRules` and
  `MergeDeclarations` do so for the four constructors with the most tables, and the other modules keep
  such lemmas beside the table.
* Objects whose methods update fields are classes; loops are loops, each proved against a specification.
  A context descriptor is consumed and returned by its builders, so it is a value.

Two places where the code decides against its own wording: the pass usage scope is the class table of
`render_pass_usage.rs`, although the comments speak of WebGPU usage scopes; and a declared maximum is
applied after the baseline, so it lowers the required budget instead of only bounding it.

## Model

| member | source | states |
|---|---|---|
| TextureFormat.CanonicalKeepsPlanes | src/api/texture_format.rs:21-44 | an aspect is supported iff it selects a stored plane, and canonicalizing keeps the selected planes and identifies equal aspects |
| TextureFormat.BlockCountIsLeastCover | src/api/texture_format.rs:1403-1405 | the block count is the least number of blocks that covers the extent |
| TextureFormat.FootprintIsExact | src/api/texture_format.rs:1407-1427 | a footprint is the fewest blocks that cover the extent, in bytes of the one plane the aspect selects; there is none exactly for an empty extent, for no such plane or several, for a plane without a copyable block, or for a row over 32 bits |
| TextureFormat.CopyBlockIsSelectedPlane | src/api/texture_format.rs:1354-1377 | the copy-block size is that of the one plane the aspect selects, and exists only for such a plane |
| TextureFormat.ListedFormatsStoreTheirBits | src/api/texture_format.rs:313-1230 | each named format stores single texels, exactly the planes its name lists, and their channel bits without padding |
| TextureFormat.DepthAndStencilArePlanes | src/api/texture_format.rs:46-52 | a format has depth or stencil iff it stores that plane, and its whole aspect selects all planes |
| Resource.ShiftReaches | src/api/resource.rs:927-939 | a right shift reaches a quotient iff the value reaches that quotient times the power of two |
| Resource.LeadingZerosLocatesTopBit | src/api/resource.rs:927-939 | leading zeros place a word between two adjacent powers of two |
| Resource.MipBoundIsExact | src/api/resource.rs:927-939 | a mip count passes iff it is nonzero and its last level still has a texel; accepted levels shift by less than 32; the last permitted level has maximum dimension 1 |
| Resource.MipCountRules | src/api/resource.rs:927-939 | a texture may have a number of mip levels iff the last one keeps a texel along some edge; array layers never count, the depth of a volume does |
| Resource.EveryLevelHasATexel | src/api/resource.rs:927-939 | every level of a texture keeps a texel along some edge |
| Resource.MipExtentsShrink | src/api/render_pass.rs:283-291 | mip extents are positive and never grow |
| Access.AspectAlgebraIsSetAlgebra | src/api/access.rs:272-319 | aspect overlap, containment and intersection are those of the selected plane sets |
| Access.OverlapsIffPointsMeet | src/api/access.rs:205-211 | ranges overlap iff some point is in both |
| Access.ContainsIffPointsIncluded | src/api/access.rs:213-219 | containment holds iff every point of the inner range is in the outer one |
| Access.IntersectionIsExact | src/api/access.rs:321-354 | the intersection is exactly the common points, fails iff there are none, and its inner constructor never fails |
| Access.TextureAccessNormalizesToVisiblePoints | src/api/access.rs:596-629 | an access is built iff range and usage are valid and some requested point is visible; it then covers exactly the visible requested points, inside the parent |
| Access.TextureAccessRules | src/api/access.rs:597-740 | an access is built iff volumes are addressed whole, the range stays inside the texture, the aspect selects a plane, some point is visible, the usages permit the kind with transient attachments confined to clear and discard, and the target has the plane it renders to; a refusal gives the first rule broken |
| Access.BufferRangeRules | src/api/access.rs:25-49 | a byte range is built iff it holds bytes and the buffer holds all of them; overflow and overrun are told apart |
| Access.BufferAccessRules | src/api/access.rs:503-534 | a buffer access is built iff its bytes lie in the buffer and the buffer has the usage of the kind |
| PassUsage.ValidateRenderPassUsageScope | src/api/render_pass_usage.rs:19-63 | the nested loop accepts iff all roles are allowed and no pair clashes; otherwise it reports the first forbidden role, or the first clashing pair in visiting order |
| PassUsage.PairErrorIffSharedPointClashes | src/api/render_pass_usage.rs:36-82 | two texture accesses clash iff some point of one texture is touched by both in different classes or as attachments |
| PassUsage.UsageScopeIsPointwise | src/api/render_pass_usage.rs:19-125 | a pass is accepted iff no forbidden role occurs, every buffer has one class, and every point of every texture has one class and at most one attachment |
| PassUsage.ClassTableIsExact | src/api/render_pass_usage.rs:84-125 | which kinds of access only read, use storage, are targets, stay out of the scope or do not belong in a pass, kind by kind |
| PassUsage.PairErrorNamesTheClash | src/api/render_pass_usage.rs:36-63 | a pair sharing storage clashes iff its uses differ or both are targets, and the error tells which and names the resource they share |
| PassUsage.PassAcceptsIff | src/api/render_pass_usage.rs:19-125 | a pass is accepted iff no copy, query-resolve or present access occurs, no buffer is both read and used as storage, nothing else reaches a point of a target, and no point is both read and used as storage |
| PassUsage.AcceptanceIsInheritedBySubmultisets | src/api/render_pass_usage.rs:19-63 | dropping accesses from an accepted pass, in any arrangement, leaves an accepted pass |
| PassUsage.AcceptanceIgnoresOrder | src/api/render_pass_usage.rs:19-63 | acceptance depends only on the multiset of accesses |
| RenderPass.FromAttachments | src/api/render_pass.rs:68-105 | a signature is derived iff there is an attachment and all of them agree in extent, samples and multiview; it carries those facts and the formats in order |
| RenderPass.NewRenderOperation | src/api/operation.rs:41-138 | the constructor succeeds iff the operation meets the stated acceptance predicate, and stores exactly the accesses of attachments, draws and timestamps in that order; a refusal names the first rule that fails, draws judged one by one |
| RenderPass.SignatureIsDetermined | src/api/render_pass.rs:68-105 | attachments admit at most one signature |
| RenderPass.AcceptedPassHasOneShape | src/api/render_pass.rs:201-226 | in an accepted pass every attachment has the signature's extent, samples and multiview, and every draw's scissor lies inside every attachment's effective mip extent |
| RenderPass.AcceptedPassIsolatesAttachments | src/api/operation.rs:98-128 | no point of an accepted pass carries two writable attachments, or a writable attachment and a sampled or storage use |
| RenderPass.ColorTargetsAreDisjoint | src/api/operation.rs:98-128 | no two color sources or resolve destinations of a pass share a point, an attachment's own source and resolve destination included |
| RenderPass.CheckDraws | src/api/operation.rs:93-96 | draws are judged one by one, and the cause reported is that of the first refused draw |
| RenderPass.DrawsNeverTouchColorTargets | src/api/operation.rs:98-128 | no shader use of a draw reaches a point a color attachment or resolve target writes |
| RenderPass.DrawsNeverTouchWritableDepthStencil | src/api/operation.rs:107-128 | no shader use of a draw reaches a writable depth or stencil plane of the attachment |
| RenderPass.DrawingWhileSamplingIsAccepted | src/api/operation.rs:41-138 | a matching draw into one color attachment that samples a different texture always makes an accepted pass |
| RenderPass.CollectColorAccesses | src/api/operation.rs:98-106 | the loop lists each attachment's source access, then its resolve access |
| RenderPass.CollectDrawAccesses | src/api/operation.rs:115-117 | the loop concatenates the accesses of the draws |
| RenderPassRules.MipLengthIsExact | src/api/render_pass.rs:283-291 | an edge of an attachment counts the whole texels of its mip level, and at least one |
| RenderPassRules.SignatureRules | src/api/render_pass.rs:236-281 | the signature is the extent, samples, multiview and formats that the fields of all views name |
| RenderPassRules.DrawRules | src/api/operation.rs:165-247 | a draw passes iff its pipeline has the fields of the signature, its scissor ends inside the extent, and it tests and writes only the depth and stencil aspects the attachment has and opens |
| RenderPassRules.DrawsRefusedIff | src/api/operation.rs:93-96 | draws are refused iff some draw does not meet the pass, for what the first such draw lacks |
| RenderPassRules.ListsEveryAccessIff | src/api/operation.rs:98-128 | the list holds each source with its resolve destination, depth before stencil, the draws in order, and last one query per timestamp |
| RenderPassRules.AcceptedIff | src/api/operation.rs:41-138 | an operation is accepted iff it has an attachment and work, carries the common signature, every draw meets it, every access is listed, and the kinds of access on every buffer and texture point are compatible |
| RenderPassRules.AcceptedDrawsRespectAspects | src/api/operation.rs:165-247 | draws of an accepted pass use depth or stencil only where the target has it, and write it only where the target is writable |
| RenderPassRules.WrittenAspectIsNeverRead | src/api/operation.rs:107-128 | what some draw of an accepted pass may write to depth or stencil, no draw samples or stores |
| CopyLayout.AddressesFillSize | src/api/operation.rs:564-591 | every addressed byte lies below the shape's size and the last one is the byte before it |
| CopyLayout.AddressesAreInjective | src/api/operation.rs:564-591 | different (image, row, byte) triples have different addresses |
| CopyLayout.CheckedSizeIsShapeSize | src/api/operation.rs:564-591 | the checked sum is the reference size, and no intermediate check refuses what the final one admits |
| CopyLayout.CopyFootprintIsExact | src/api/operation.rs:544-598 | a copy is accepted iff rows fit and offset plus size fits the buffer; its range is then exactly offset and size |
| CopyLayout.AcceptedCopyBytesStayInRange | src/api/operation.rs:544-598 | every byte of an accepted copy lies in the derived range and the buffer, and the range ends at the last of them, single images with no row count included |
| CopyLayout.AcceptedCopyBytesAreDistinct | src/api/operation.rs:544-598 | two logical bytes of an accepted copy never share a buffer byte |
| CopyLayout.PreparedDataIsExact | src/api/resource.rs:518-613 | prepared data is accepted iff rows fit and its bytes reach the end of the shape, for every row stride, zero included |
| CopyLayout.PreparedAgreesWithCopy | src/api/resource.rs:526-605 | prepared data is accepted iff a copy of the same layout from a buffer of that length would be, overflow included |
| CopyLayout.ConstructedCopyIsRederived | src/api/work/copy.rs:514-591 | the constructor's separately written check accepts exactly the aligned layouts whose derived access exists, overflow included, and checks that same access |
| CopyLayout.TightLengthIsPackedLayout | src/api/texture_format.rs:1429-1445 | the tightly packed length is the size of the packed layout, overflow included |
| CopyLayout.PackedLayoutIsLeast | src/api/texture_format.rs:1429-1445 | no layout with fitting rows is smaller than the packed one |
| CopyLayout.TightLengthIsLeastLayout | src/api/texture_format.rs:1429-1445 | for every aspect, an accepted copy layout is at least as long as the tight length, and exactly as long without padding |
| CopyLayout.TightLengthIsLeastPreparation | src/api/texture_format.rs:1429-1445 | prepared data without padding requires exactly the tight length, overflow included, and no row layout requires less |
| RenderDraw.MaxAttributeEndIsLeastBound | src/api/render_execution.rs:513-525 | the maximum attribute end bounds all attribute ends and is the least such bound |
| RenderDraw.SteppedRangeIsExact | src/api/render_execution.rs:513-538 | the stepped check holds iff every attribute fetch at every step below the end is inside the binding, an end of zero included |
| RenderDraw.IndexedRangeIsExact | src/api/render_execution.rs:459-477 | the index check holds iff every index read is inside the slice |
| RenderDraw.ValidateDirectVertexRanges | src/api/render_execution.rs:479-511 | the loop accepts iff every host-known fetch is inside the binding of its own slot |
| RenderDraw.ArrangementIsUnique | src/api/render_execution.rs:307-334 | a collection of bindings has at most one arrangement along the layouts, and sorting by slot finds it |
| RenderDraw.ArrangeBindings | src/api/render_execution.rs:307-334 | the bindings sorted by slot are returned iff they can be arranged along the layouts |
| RenderDraw.CheckIndexBuffer | src/api/render_execution.rs:336-363 | accepts iff an index buffer is bound exactly for draws that use indices and every host-known index read is inside it |
| RenderDraw.NewRenderDraw | src/api/render_execution.rs:290-393 | a draw is invalid iff the multiset of bindings has no arrangement whose fetches and index reads are inside; otherwise it fails only for inaccessible indirect arguments, with their own cause; the stored bindings are that arrangement, whatever order they came in |
| RenderDrawRules.SuppliedIff | src/api/render_execution.rs:290-393 | bindings supply a draw iff layouts agree, slots match the vertex input in order, an index buffer is there exactly for indexed draws, and every byte fetched from the first to the last known vertex, instance and index lies in its slice |
| RenderDrawRules.ArgumentRules | src/api/work/draw.rs:168-185 | indirect arguments are accessible iff the buffer holds them and has indirect usage |
| RenderDrawRules.DrawAccessRules | src/api/render_execution.rs:368-380 | the access list is the runtime bindings, the vertex buffers in slot order, the index buffer and the arguments |
| Capability.GpuCapabilityRequirements.Insert | src/api/capability.rs:89-108 | an insertion stores the merged requirement under its own feature, or reports the conflict and changes nothing |
| Capability.GpuCapabilityRequirements.Merge | src/api/capability.rs:118-124 | merging leaves both operands alone and yields the pointwise merge, or the first conflict in key order |
| Capability.RequirementMergeAssociatesIff | src/api/capability.rs:127-159 | two groupings that both succeed agree; one succeeds without the other exactly when a preference sits between a hard requirement and a rival preference |
| Capability.RequirementMergeIsNotAssociative | src/api/capability.rs:127-159 | a concrete triple whose groupings differ |
| Capability.MergeEntriesCommutes | src/api/capability.rs:118-124 | set merge commutes, down to the reported feature and cause |
| Capability.GroupingsAt | src/api/capability.rs:127-159 | at one feature a grouping fails iff the feature is refused outright or squeezed by the requirement that grouping leaves for last |
| Capability.MergeEntriesAssociates | src/api/capability.rs:118-159 | groupings of whole sets that both succeed agree; one succeeds exactly when the other does iff some feature is refused outright, or features are squeezed from both sides, or from neither |
| Capability.InsertAllSummarizes | src/api/capability.rs:89-108 | inserting a list succeeds iff no feature is contradicted, and the result is determined by the set of requirements |
| Capability.InsertOrderIsIrrelevant | src/api/capability.rs:89-108 | with preferences agreeing per feature, permuting the list changes neither success nor the result |
| Capability.FirstConflictIsFirst | src/api/capability.rs:118-124 | the reported conflict is the least conflicting feature |
| Capability.Evaluate | src/api/capability.rs:688-774 | evaluation succeeds iff enabled features are supported and no requirement is violated; otherwise it reports the least unavailable enabled feature, or the least violated requirement and its cause |
| Capability.EvaluationRules | src/api/capability.rs:688-774 | features can be enabled iff every requirement and nothing disabled is among them, and each way to break the rule has its cause |
| Preference.RankBackends | src/api/context/descriptor.rs:204-215 | each listed backend gets the saturated position of its first mention |
| Preference.FirstMentionRanks | src/api/context/descriptor.rs:204-215 | a listed backend ranks by its first mention, and positions past 255 rank as 255 |
| Preference.DistinctListRanksByPosition | src/api/context/descriptor.rs:204-215 | a list without repetitions is ranked by position without gaps |
| Preference.RenumberKeepsOrder | src/api/context/descriptor.rs:318-352 | renumbering puts one backend before another iff it ranked lower, or equal and earlier in key order |
| Preference.RenumberFixesExactlyDense | src/api/context/descriptor.rs:318-352 | renumbering leaves a preference alone iff its ranks have no gaps and no ties |
| Descriptor.ValidateDescriptorSemantics | src/api/context/descriptor.rs:505-547 | the validation loops give the verdict of the declarative validity predicates, degradations first |
| Descriptor.AbsorbLimits | src/api/context/descriptor.rs:364-372 | replaying every declared bound through the builders is the pointwise join of the limit maps |
| Descriptor.AbsorbRoles | src/api/context/descriptor.rs:373-375 | replaying every format role is the union of the role sets |
| Descriptor.AbsorbAlignments | src/api/context/descriptor.rs:376-378 | replaying every cap is the pointwise join of the alignment maps |
| Descriptor.Merge | src/api/context/descriptor.rs:302-382 | the merge as written computes the componentwise join, its refusals included |
| MergeAlgebra.RequireLimitIsJoin | src/api/context/descriptor.rs:400-407 | requiring a minimum is joining with the request that only declares it |
| MergeAlgebra.PermitLimitIsJoin | src/api/context/descriptor.rs:409-420 | permitting a maximum is joining with the request that only declares it |
| MergeAlgebra.MergeCommutes | src/api/context/descriptor.rs:302-382 | merge commutes on all descriptors, refusals included |
| MergeAlgebra.EmptyIsUnitIff | src/api/context/descriptor.rs:302-382 | merging with the empty request gives a request back iff it is valid and its ranks are dense |
| MergeAlgebra.MergeIsIdempotentIff | src/api/context/descriptor.rs:302-382 | a request is its own merge iff it is valid and its ranks are dense |
| MergeAlgebra.GappedPreferenceIsNotIdempotent | src/api/context/descriptor.rs:204-215 | a repeated backend leaves a gap, and that request is not its own merge |
| MergeAlgebra.ValidPreferencesAreNeverSqueezed | src/api/context/descriptor.rs:551-587 | one valid fallback per feature excludes the shape that breaks associativity |
| MergeAlgebra.MergeIsLawful | src/api/context/descriptor.rs:302-382 | every successful merge is valid and densely ranked |
| MergeAlgebra.LawfulMergeFailsAsContradiction | src/api/context/descriptor.rs:302-382 | merging valid requests is refused only as a contradiction |
| MergeAlgebra.ContradictionsPersist | src/api/context/descriptor.rs:505-547 | an intermediate merge that fails validation fails it under every further merge |
| MergeAlgebra.MergeAssociates | src/api/context/descriptor.rs:302-382 | on valid, densely ranked requests both groupings give the same request or the same refusal |
| MergeDeclarations.MergesIff | src/api/context/descriptor.rs:302-382 | two requests merge into a given request iff no two declared choices are rivals, no lists are disjoint, no feature is contradicted, and that request is valid and declares exactly what both declare: choices, lists, preference order, strengths, tightest bounds, roles and caps |
| MergeDeclarations.MergeRefusals | src/api/context/descriptor.rs:302-382 | a contradiction is refused first, then an unfit fallback, then an unmeetable bound or a preference outside the allowlist |
| MergeDeclarations.RivalChoicesNeverMerge | src/api/context/descriptor.rs:437-503 | with nothing else declared, two power preferences, fallback policies, exact candidates or backend preferences merge iff they are equal |
| MergeDeclarations.ValidationRules | src/api/context/descriptor.rs:505-587 | validation refuses a fallback other than the one its feature has, then a zero bound, an empty interval or a preference outside the allowlist |
| MergeDeclarations.DeclarationsFixTheMerge | src/api/context/descriptor.rs:302-382 | what both sides declare determines every field of the merged request |
| MergeGrouping.MergeFactors | src/api/context/descriptor.rs:302-382 | a merge of valid requests is the merge without preferences, joined by the renumbered merge of the preferences if the allowlist admits it |
| MergeGrouping.GroupingsOfPreferences | src/api/context/descriptor.rs:489-503 | the case condition on three preferences is exactly when grouping them either way is equally defined, and then the results agree |
| MergeGrouping.MergeAssociatesIff | src/api/context/descriptor.rs:302-382 | the groupings of three valid requests agree iff they contradict apart from preferences, or a preference escapes the common allowlist, or the preferences meet the case condition |
| MergeGrouping.SelfGroupingIffDense | src/api/context/descriptor.rs:302-382 | a valid request groups alike with itself and the empty request iff its ranks have no gaps |
| MergeGrouping.GappedPreferenceBreaksAssociativity | src/api/context/descriptor.rs:204-215 | so a request that repeats a backend breaks associativity |
| Admission.BudgetReadsBack | src/api/context/admission.rs:490-605 | a budget is refused iff a 32-bit kind overflows, and reads back kind by kind as the effective value |
| Admission.LimitsFromReadsBack | src/api/context/admission.rs:490-605 | filling the limits record and reading it by kind is a round trip over all twenty kinds |
| Admission.EffectiveValueClampsBaseline | src/api/context/admission.rs:490-568 | for valid limits the effective value is the baseline clamped into the declared interval |
| Admission.RequestedEvaluationFailsOnlyAsUnavailable | src/api/context/admission.rs:264-280 | with exactly the requested supported features enabled, the only violation is a missing required feature |
| Admission.DegradationsAreMissingPreferences | src/api/context/admission.rs:271-280 | the degradations are exactly the preferred features the adapter lacks, in key order |
| Admission.DegradationsKeepFallbacks | src/api/context/admission.rs:271-280 | each degradation carries the fallback its preference declared |
| Admission.EvaluationPartitionsRequirements | src/api/capability.rs:688-774 | the three result lists split the requirement map, each in key order |
| Admission.DerivePortability | src/api/context/admission.rs:607-670 | the reasons are exactly those the declarative rule lists, and the class follows from them |
| Admission.ClassDecidesPortability | src/api/context/admission.rs:328-350 | rejecting by class is rejecting by the declared portability rules |
| Admission.CheckSelection | src/api/context/admission.rs:210-262 | host, backend, class, fallback and profile either all pass or the first failing one is named |
| Admission.EvaluateRequested | src/api/context/admission.rs:264-280 | evaluating the requested features succeeds iff every required feature is supported, enables exactly the requested supported ones, and otherwise names the first missing required feature in key order |
| Admission.CheckRoles | src/api/context/admission.rs:282-303 | the loop accepts iff every requested format role is supported |
| Admission.CheckAlignments | src/api/context/admission.rs:305-312 | the loop accepts iff every capped alignment is known and within its cap |
| Admission.FirstLimitBelow | src/api/context/admission.rs:315-326 | the least limit kind whose observed value falls short is found, or there is none |
| Admission.CheckPortability | src/api/context/admission.rs:328-350 | evidence is accepted iff the request's portability rules hold of the request and the adapter |
| Admission.CheckBudget | src/api/context/admission.rs:313-326 | the first limit in kind order below the effective budget is reported with both values |
| Admission.EvaluateValidatedCandidate | src/api/context/admission.rs:204-366 | a candidate is admitted iff all checks hold; otherwise the first failing check is reported; the contract kept is the one the request and adapter determine |
| Admission.AdmittedDeviceFacts | src/api/context/admission.rs:389-431 | a device passes iff its limits reach the budget and its alignments equal the admitted ones and respect the caps; otherwise the first failure is reported |
| Admission.AdmittedAdapterPassesDeviceCheck | src/api/context/admission.rs:389-431 | a device with the admitted adapter's own limits and alignments passes |
| AdmissionRules.AdmitsIff | src/api/context/admission.rs:204-366 | a candidate is admitted iff it meets the rules on host, lists, fallback, profile, features, format roles, alignments, limits and portability, each written on fields; the width check adds nothing |
| AdmissionRules.CheckRules | src/api/context/admission.rs:204-366 | each of the eleven checks asks exactly its rule, so a rejection names the rule broken |
| AdmissionRules.FallbackPolicyOnlyFilters | src/api/context/admission.rs:234-257 | a fallback policy admits exactly those adapters admitted without one that are confirmed fallbacks, or confirmed not to be and not software |
| AdmissionRules.RoleTableIsExact | src/api/context/admission.rs:282-303 | which fact of a format each role needs; blending needs a color attachment too |
| AdmissionRules.EffectiveValueIsLeastServing | src/api/context/admission.rs:433-605 | the effective value of a limit is the least that reaches its cap, or its baseline and declared minimum, with the baseline of every kind spelled out |
| AdmissionRules.ServedBudgetIsNarrow | src/api/context/admission.rs:490-605 | an adapter whose limits suffice never fails the 32-bit width check of the budget |
| AdmissionRules.ExtensionTablesAreExact | src/api/context/admission.rs:672-708 | the extension features are all but eight, and the extension roles are those listed per format |
| AdmissionRules.ContractRules | src/api/context/admission.rs:350-366 | the contract enables exactly the features in effect, records each missing preference with its fallback in key order, and holds the least budget that serves |
| AdmissionRules.UnmetPreferencesDegrade | src/api/context/admission.rs:271-280 | of any evaluation exactly the preferences lacking either flag are degraded, and those with both take effect beside the granted requirements |
| AdmissionRules.EvidenceRules | src/api/context/admission.rs:607-670 | the evidence of an admitted candidate has exactly the stated reasons, and its class follows from a single listed backend, then from extensions |
| AdmissionMonotone.DemandGrowsUnlessCapped | src/api/context/admission.rs:490-568 | merging lowers the demand on a limit only where the other side's cap lies below it |
| AdmissionMonotone.OtherChecksAreInherited | src/api/context/admission.rs:204-366 | every check but the two on limits passes for an operand when it passes for the merge |
| AdmissionMonotone.AdmissionIsInheritedIff | src/api/context/admission.rs:204-366 | an adapter admitted for a merge is admitted for an operand iff it reaches the demands the other side had capped away |
| AdmissionMonotone.AdmissionIsMonotoneWithoutCaps | src/api/context/admission.rs:204-366 | with no maxima on the other side admission of the merge implies admission of the operand |
| AdmissionMonotone.CapsAdmitMore | src/api/context/descriptor.rs:409-420 | a concrete cap whose merge admits an adapter the uncapped request rejects |
| Hazards.AccessIntersectionIsExact | src/api/graph/dependency.rs:82-144 | the reported region is exactly the storage both accesses touch, and none is reported iff there is none |
| Hazards.KindTablesAreExact | src/api/access.rs:371-479 | which kinds of access change storage and which observe it, with load, store and access arguments of attachments |
| Hazards.InferFragmentHazards | src/api/graph/hazards.rs:17-71 | the loops find every read-write and write-write overlap of an earlier and a later node, with storage, region and kind, and nothing else |
| Hazards.RelateToEarlier | src/api/graph/hazards.rs:32-60 | the innermost loop adds exactly the hazards of one access with the recorded accesses of other nodes |
| Hazards.HazardEdges | src/api/graph/hazards.rs:176-193 | one pair of accesses contributes exactly the reasons its reads, writes and overlap give |
| ExplicitOrders.Expand | src/api/graph/hazards.rs:410-421 | one expansion meets the goal iff a successor is the target reached with data, and otherwise adds exactly the successors |
| ExplicitOrders.DependencyDataPathExists | src/api/graph/hazards.rs:398-424 | the search answers yes iff some walk leads from start to target and uses a data edge |
| ExplicitOrders.AddExplicitOrders | src/api/graph/hazards.rs:215-297 | orders are judged one by one: unknown endpoint, repeated data order, opposed data order, or admitted |
| ExplicitOrders.AdmittedOrdersSpareData | src/api/graph/hazards.rs:215-297 | whatever orders are admitted, no cycle they close runs through a data dependency |
| ExplicitOrders.AdmittedOrdersAreTheStated | src/api/graph/hazards.rs:215-297 | admission keeps exactly the stated orders |
| NodeOrder.CountEdges | src/api/graph/hazards.rs:432-460 | the successor sets and in-degrees are those of the edges, and an unknown endpoint is refused |
| NodeOrder.PopFirst | src/api/graph/hazards.rs:466-466 | the least ready node is taken out |
| NodeOrder.Release | src/api/graph/hazards.rs:468-477 | finishing a node lowers each dependent's count by one and readies exactly those that waited for nothing else |
| NodeOrder.TopologicalNodeOrder | src/api/graph/hazards.rs:426-502 | an order is returned iff there is no cycle; it lists every node once, respects every edge and always takes the smallest ready node; otherwise the least node caught on or behind a cycle is reported |
| NodeOrder.GreedyIsDeterministic | src/api/graph/hazards.rs:461-478 | at most one order takes the smallest ready node at every step |
| NodeOrder.RespectedOrderHasNoCycle | src/api/graph/hazards.rs:426-502 | where an order respects the edges there is no cycle |
| NodeOrder.BlockedHoldsACycle | src/api/graph/hazards.rs:479-500 | a set of nodes that all wait for each other contains a cycle |
| WorkMeaning.WorkCommutes | src/api/graph/hazards.rs:30-60 | nodes without a conflict can be swapped in every memory |
| WorkMeaning.ConflictIsHazard | src/api/graph/hazards.rs:17-71 | every conflict of two nodes is inferred as an edge |
| WorkMeaning.HazardIsConflict | src/api/graph/hazards.rs:17-71 | every inferred edge is a conflict |
| WorkMeaning.OrdersAgree | src/api/graph/hazards.rs:426-502 | all orders along dependencies that order every conflict leave the same memory |
| WorkMeaning.UpwardEdgesKeepAuthoredOrder | src/api/graph/hazards.rs:461-478 | with edges from earlier to later nodes only, the greedy order is the authored order |
| WorkMeaning.InferredIsDataOrder | src/api/graph/hazards.rs:17-71 | the inferred edges are exactly the conflicts of earlier and later nodes |
| WorkMeaning.InferredEdgeIff | src/api/graph/hazards.rs:17-71 | an edge leads from an earlier to a later node iff two of their accesses reach a common location, one changes it and the other changes or observes it, by the listed kinds |
| DependencyNecessity.OrderMattersIff | src/api/graph/hazards.rs:30-60 | some work within two declarations leaves different memories in the two orders iff the declarations conflict and both write something |
| DependencyNecessity.DependencyIffOrderMatters | src/api/graph/hazards.rs:17-71 | between an earlier and a later node that both write, an edge is inferred exactly if their order can matter |
| WorkMeaning.PrepareFragment | src/api/graph/preparation.rs:236-243 | preparation succeeds iff every stated order is admitted against the data order and the stated orders have no cycle; the result is the greedy order along both, leaves the memory of the authored order, and is that order when none is stated; an order is refused for the reason admission gives, and a cycle names the least node caught |
| SurfaceLease.GpuSurfaceLeaseState.CompareExchange | src/api/surface_acquisition.rs:115-134 | the exchange writes iff it finds the expected value, and reports what it found |
| SurfaceLease.GpuSurfaceLeaseState.Abandon | src/api/surface_acquisition.rs:115-122 | only an active lease becomes abandoned |
| SurfaceLease.GpuSurfaceLeaseState.Present | src/api/surface_acquisition.rs:124-134 | presenting succeeds iff the lease is active, and otherwise reports what it became |
| SurfaceLease.GpuSurfaceLeaseOwner.Drop | src/api/surface_acquisition.rs:380-387 | an undisturbed drop settles the disposition and calls a live releaser once, on the settled lease |
| SurfaceLease.DispositionChangesAtMostOnce | src/api/surface_acquisition.rs:102-135 | in every run the disposition changes at most once, and only away from active |
| SurfaceLease.StepsAreEnabledExactly | src/api/surface_acquisition.rs:366-387 | a step can happen exactly where its thread stands: references are shared or dropped by whoever holds one, and the drop runs its steps in order |
| SurfaceLease.AbandoningSettles | src/api/surface_acquisition.rs:115-122 | from an abandon or the last drop on, the lease reads presented if it did before, and abandoned otherwise |
| SurfaceLease.SettledDispositionStays | src/api/surface_acquisition.rs:102-135 | presented and abandoned are final |
| SurfaceLease.AtMostOnePresentSucceeds | src/api/surface_acquisition.rs:124-134 | at most one present of a run succeeds |
| SurfaceLease.PresentedIffAPresentSucceeded | src/api/surface_acquisition.rs:124-134 | a lease reads as presented iff a present succeeded before |
| SurfaceLease.OwnersAreConserved | src/api/surface_acquisition.rs:366-387 | owner references granted and surrendered balance, and the drop starts exactly at the last surrender |
| SurfaceLease.ReleasersAreConserved | src/api/surface_acquisition.rs:380-387 | references to the releaser taken and given back balance, the one the drop takes included |
| SurfaceLease.NoResurrection | src/api/surface_acquisition.rs:466-468 | no weak upgrade brings a dead owner back |
| SurfaceLease.DropStepsHappenOnce | src/api/surface_acquisition.rs:380-387 | marking, upgrading and releasing each happen at most once in a run |
| SurfaceLease.ReleaseSeesASettledLease | src/api/surface_acquisition.rs:380-387 | at the release the disposition is settled and no owner is left, then and ever after |
| SurfaceLease.ReleasedExactlyIfAlive | src/api/surface_acquisition.rs:380-387 | a finished drop released exactly if the releaser was alive at its upgrade |
| SurfaceLease.EveryLeaseCanEnd | src/api/surface_acquisition.rs:366-387 | from every reachable state dropping what is held completes within a known number of steps |
| SurfaceLease.PresentCanWinTheLastDrop | src/api/surface_acquisition.rs:380-387 | a run in which a present overtakes the last drop and the image is released as presented |
| ResourceId.OwnerScopeAllocator.Allocate | src/api/work_resource_id.rs:72-91 | the counter hands out its value and advances, or is at its terminal zero and stays there |
| ResourceId.GpuWorkResourceIdAllocator.Allocate | src/api/work_resource_id.rs:101-134 | an allocation takes a scope at first use, advances the local, and on failure changes nothing |
| ResourceId.IssuedIdentitiesAreUnique | src/api/work_resource_id.rs:72-134 | in every interleaving identities are nonzero and distinct, share a scope iff one allocator returned them, and then have increasing locals |
| ResourceId.ScopesAreConsecutive | src/api/work_resource_id.rs:79-90 | scopes are granted consecutively to distinct holders, and the counter is exhausted exactly after the last representable one |
| ResourceId.LocalsAreConsecutive | src/api/work_resource_id.rs:122-134 | an allocator's identities carry locals 1, 2, 3 and so on without gaps |
| ResourceId.ScopesAreDistinct | src/api/work_resource_id.rs:79-90 | two allocators never hold the same scope, even between exchange and commit |
| ResourceId.ScopeExhaustionIsFinal | src/api/work_resource_id.rs:79-90 | after exhaustion no scope is granted any more |
| ResourceId.LocalExhaustionIsFinal | src/api/work_resource_id.rs:122-134 | an allocator out of locals returns nothing any more |
| ResourceId.FailedAllocationChangesNothing | src/api/work_resource_id.rs:122-134 | a failed allocation leaves its allocator as it was when it began, whatever retries and other threads came between, and its last step takes nothing from the counter |
| ResourceId.FailureEndsEmptyHanded | src/api/work_resource_id.rs:122-134 | a step fails exactly if it ends the allocation without an identity |
| ResourceId.ExchangeLosesOnlyToAWinner | src/api/work_resource_id.rs:79-90 | a changed counter means that another allocator has won a scope since the load |
| ResourceId.ThreadsAreNeverStuck | src/api/work_resource_id.rs:79-134 | an allocation can always take the next step of its thread, and no other |
| ResourceId.LostExchangeCanBeRepeated | src/api/work_resource_id.rs:79-90 | an exchange wins iff it is genuine and its load is current; a lost one changes only its own load and wins if repeated at once |
| ResourceId.WinnerReturnsItsScope | src/api/work_resource_id.rs:122-134 | whoever wins a scope returns it with local 1 |
| ResourceId.UndisturbedIsSequential | src/api/work_resource_id.rs:122-134 | the atomic steps of one undisturbed allocation compute the sequential allocation |

## Left out

- The private WGPU backend, asynchronous device requests, submission and readback: calls into code that is not modelled.
- The texture-format table as data: a format is represented by its block size, copy-block sizes and aspect class for the formats whose identity a rule mentions; the other rows would only add easy members.
- Floating-point viewport, blend-constant, sampler and limit checks of a draw.
- Labels, provenance, diagnostics and error text; only the error category or cause is kept where a property mentions it.
- The UnknownBackend exception and the test-only constructors that exist under `cfg(test)`.
- The constructors of views, attachments, copies, pipelines, vertex layouts and runtime bindings: the facts they establish are subset types or named predicates; pipeline and binding internals are an opaque layout identity.
- Memory orderings weaker than sequential consistency: each atomic operation on the one counter or disposition is a single step.
- The library's `sort_by_key` is modelled as a stable insertion sort.
- Initialization and coverage analysis, fragment composition and retained seeds of a prepared graph.
- WorkMeaning.PrepareFragment: covers one fragment with its own stated orders; hazards between fragments, which follow the composition's producer relations, and graph-scope orders are not modelled.
- WorkMeaning.OrdersAgree: a node's effect is a function of memory, so contents left indeterminate by a discarded attachment are whatever that function chooses.
- Hazards.AccessIntersectionIsExact: a query region is not checked again against the query set's size, which its two operands already respect.
- SurfaceLease.GpuSurfaceLeaseOwner.Drop: the releaser records the dispositions its calls observe; what the backend does with the image is not modelled.
- ResourceId.OwnerScopeAllocator.Allocate: the single-threaded method has no retry loop; the loop is in the interleaved model. Surface lease identities use the same counter update and are not modelled separately.
