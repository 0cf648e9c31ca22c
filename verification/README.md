# Glyph Protocol: a model and its proofs

Glyph Protocol signs the contracts of tools that agents call. A tool is described by a card; the
card's id is the hash of its canonical JSON; a server signs the card and a receipt for every call; a
client pins the cards it approved and checks every receipt against its pins. This project models the
parts of the repository on which those promises rest and proves them for all inputs, all runs and all
interleavings.

| files | what they model |
|---|---|
| `Texts`, `Json`, `Canonical`, `JsonReading`, `Crypto` | strings as UTF-16 code units, JSON values with their own key order, the printer and a reader that undoes it, the canonical form, hash and signature schemes as parameters |
| `Cards`, `CardFields`, `CardProvenance` | card ids, card signatures, the card diff, the fields by name, where a verified card comes from |
| `Governance`, `Client`, `GovernanceProofs`, `ClientGates`, `Promotion` | the client's pin, trust and attestation gates, trust on first use, revocation, parked updates, audits and policy-gated promotion, as a state machine and as the objects that carry it |
| `Receipts` | the server's sealed envelope and the client's six checks |
| `Server`, `ServerHandlers`, `ServerProofs`, `ServerGates`, `ReplayProofs`, `BacklogProofs` | the prepare and call handlers, cut at every await, with their history |
| `JsMaps`, `Stores`, `RateLimit` | the in-memory stores and the fixed-window limiter |
| `Pointers`, `Enumeration`, `RefResolver`, `RefProofs` | JSON Pointer (RFC 6901) and the inlining of `$ref` |
| `Utf16`, `Stripping`, `Reports`, `Sanitizer`, `GoSanitizer`, `SanitizerAgreement` | the sanitizer and its report, in the core and in the Go SDK, and where the two agree |
| `GoCanonical`, `GoAgreement`, `GoStrings` | the Go SDK's one-pass canonical writer and its agreement with the core |
| `KeyRegistries`, `KeyCommands`, `KeyProofs`, `KeyBinding`, `KeyLifetimes` | the key registry, its verification, rotation and revocation, what its signatures bind, from when to when a key counts |
| `FileStores`, `FileStoreProofs`, `FileStoreProgress` | the file-backed pin store and audit queue |

Code that changes state is modelled by classes and methods. Each method is tied by its contract to a
function (a step of a state machine, or the value a loop computes), and the theorems are about these
functions. Time, random tokens, fetched cards, handler results and verifier answers are parameters.
SHA-256 and ed25519 are the fields of a `Suite`; a theorem that needs collision freedom, that
signatures verify, or unforgeability, asks for it by name. NFKC is a parameter of the sanitizer with
two stated properties: it is idempotent, and it neither introduces nor removes a stripped character.

The theorems a reader may want first: `Canonical.CanonTextEqualIffSame`, `JsonReading.PrintReads`,
`Cards.DiffExplainsId`, `CardFields.ApprovalRequiredByName`, `GovernanceProofs.PinsStayWithinPolicy`,
`GovernanceProofs.NamedFieldsStay`, `ClientGates.CallPostedExactly`, `ClientGates.RevocationBlocks`,
`ClientGates.AuditMovesOnlyAsManifested`, `ServerProofs.ConfirmedRunsMapToTickets`,
`ServerGates.WelcomeCall`, `ReplayProofs.EveryAnswerAccepted`, `ReplayProofs.AcceptedIsAnAnswer`,
`RateLimit.StoreRepresents`, `RefProofs.InliningIsUnfoldingExactly`, `Reports.ReportPointsAtStrings`,
`SanitizerAgreement.SameReportExactly`, `GoStrings.GoTextIsCoreTextExactly`,
`KeyProofs.EveryRegistryIsSound`, `KeyBinding.VerifiedRegistryWasSigned` and
`FileStoreProofs.FileHoldsPrefix`.

## Where the code differs from what it says

The model follows the code. Each difference has a lemma that exhibits it, beside the theorem that says
when the promise does hold.

- The canonical form drops an own `__proto__` member, so two different values can share a hash:
  `Canonical.ProtoMemberIsLost`, `Canonical.CanonLosesOnlyProto`.
- The sanitizer is described as idempotent (`packages/core/src/index.ts:404-409`). Two lone surrogates
  separated by a stripped character can come together as a tag, which the next run strips:
  `Stripping.SplitTagSurvivesOnce`, `Stripping.CleanStringIdempotentExactly`.
- The diff is described as the explainer of every id change (`packages/core/src/index.ts:128-133`). An
  undeclared member of the cost record changes the id and is not reported:
  `Cards.UndeclaredCostGoesUnreported`, `Cards.DiffExplainsId`.
- The empty promotion policy is described as promoting nothing
  (`packages/client/src/promotion-policy.ts:7-8`). It promotes review-only changes:
  `Promotion.EmptyPolicyPromotesReviewOnly`.
- A parked update keeps the diff from the pin it was parked against. If a human approves another card
  meanwhile, a promotion is judged by that old diff, and may leave the bounds of the policy:
  `GovernanceProofs.UnfitApprovalBreaksPolicy`, `GovernanceProofs.ApprovalHarmlessExactly`.
- Interleaved prepare requests can exceed the cap on pending confirmations:
  `BacklogProofs.InterleavedPreparesReachBound`, `BacklogProofs.CapRespectedExactly`.
- The dedupe key joins its parts with ':', so glyph names containing ':' can share a key:
  `Stores.SharedKeysExactly`.
- A second removal of the same parked update resolves before the first has reached the file:
  `FileStoreProofs.RepeatedRemovalResolvesEarly`, `FileStoreProofs.AlwaysDurableExactly`,
  `FileStoreProofs.ResolvedEarlyExactly`.
- The dedupe cache covers retries, not overlapping calls: the same call sent twice at once runs the
  handler twice: `ReplayProofs.OverlappingCallsRunTwice`, `ReplayProofs.RunsAgainExactly`.
- A `$ref` whose value is not a string, or a `__proto__` member that resolves to an object with a
  string `$ref`, can make a second inlining pass change the document:
  `RefProofs.NestedRefBreaksSecondPass`, `RefProofs.InheritedRefBreaksSecondPass`,
  `RefProofs.SecondPassExactly`.
- The Go writer is meant to write the core's text (`sdks/go/glyphprotocol/canonical.go:1-5`, `:77-82`).
  A `__proto__` key, array-index keys that code-unit order puts differently from number order, and
  U+2028 or U+2029 in a string, which `encoding/json` escapes, make the texts differ:
  `GoAgreement.ProtoKeyDisagrees`, `GoAgreement.NineAndTenDisagree`, `GoStrings.SeparatorDisagrees`,
  `GoStrings.GoTextIsCoreTextExactly`.
- The Go sanitizer is said to mirror the core's (`sdks/go/glyphprotocol/sanitize.go:122-123`). It also
  strips U+2060, and counts every normalization as one: `SanitizerAgreement.SameTextExactly`,
  `SanitizerAgreement.SameReportExactly`.
- The Go sanitizer says that nothing was modified, and yet returns other strings, when it replaced
  invalid UTF-8: `GoSanitizer.UnreportedIsUnchangedExactly`.
- A revoked key is said never to be unrevoked (`packages/cli/src/commands/keys.ts:96-99`). Revoking it
  again moves its date of revocation, so that for the time in between it is no longer revoked:
  `KeyProofs.SecondRevocationUndoesAnswer`, `KeyProofs.RevokedAnswerSurvivesExactly`.

## Model

| member | source | states |
|---|---|---|
| `Json.PrintInjective` | packages/core/src/index.ts:125-126 | two JSON values that print to the same text are the same value, so comparing printed forms compares values |
| `JsonReading.PrintReads` | packages/core/src/index.ts:180-185 | a reader written after the grammar of RFC 8259 reads every printed value back, with its members in their order, whatever text follows it |
| `JsonReading.EscapedExactly` | packages/core/src/index.ts:180-185 | which code units `JSON.stringify` prints as themselves, as a short escape, or in lower-case hexadecimal |
| `Canonical.Canonicalize` | packages/core/src/index.ts:50-60 | the recursive loop over sorted keys yields the canonical form, including JavaScript's enumeration of array-index keys and its loss of `__proto__` |
| `Canonical.CanonTextCharacterizes` | packages/core/src/index.ts:180-184 | canonical texts are equal exactly when the values are equal after forgetting key order and `__proto__` members |
| `Canonical.CanonTextEqualIffSame` | packages/core/src/index.ts:179-184 | without `__proto__` members, canonical texts are equal exactly when the values differ at most in the order of keys, at any depth |
| `Canonical.CanonIdempotent` | packages/core/src/index.ts:50-60 | canonicalizing a canonical value changes nothing |
| `Canonical.CanonFixed` | packages/core/src/index.ts:50-60 | a value whose objects are already in canonical order is its own canonical form |
| `Canonical.ProtoMemberIsLost` | packages/core/src/index.ts:53-56 | two different values can share a canonical text: an own `__proto__` member is dropped |
| `Canonical.CanonLosesOnlyProto` | packages/core/src/index.ts:50-60 | the canonical form is the same value up to key order exactly when no `__proto__` member occurs |
| `Canonical.IndicesFirst` | packages/core/src/index.ts:50-59 | canonical key order without the comparison function: numerals below 2^32 - 1 first and by number, then the other keys by their first different code unit |
| `JsonReading.CanonicalTextReads` | packages/core/src/index.ts:50-59 | the canonical text reads back as a value in canonical order, which is the original up to key order exactly without `__proto__` members |
| `Crypto.CanonicalHashBinds` | packages/core/src/index.ts:179-184 | under a collision-free digest, hashes are equal exactly when the values are equal up to key order |
| `Cards.PickRecord` | packages/core/src/index.ts:67-70 | the loop over the canonical fields picks exactly the present ones, in order |
| `Cards.ComputeGlyphId` | packages/core/src/index.ts:64-74 | the id is the digest of the canonical record of the thirteen canonical fields, independent of id, key and signature |
| `Cards.CanonicalRecordDecomposes` | packages/core/src/index.ts:34-74 | canonical records have the same text exactly when every canonical field is equal under `canonEqual` |
| `Cards.SignedCardVerifies` | packages/core/src/index.ts:82-98 | a card signed over its honest id verifies |
| `Cards.VerifiedIdBindsContent` | packages/core/src/index.ts:87-98 | two verified cards share an id exactly when they agree in every canonical field |
| `Cards.DiffCards` | packages/core/src/index.ts:134-177 | the field-by-field comparison yields the specified diff: flags, changes in order, approval requirement |
| `Cards.DiffListsDifferences` | packages/core/src/index.ts:134-168 | a change is listed for exactly the compared fields that differ, with its severity and both values |
| `Cards.ApprovalRequiredExactly` | packages/core/src/index.ts:104-123 | approval is required exactly when some breaking field differs |
| `Cards.ChangedExactly` | packages/core/src/index.ts:171 | `changed` holds exactly when some compared field differs |
| `Cards.IdDetects` | packages/core/src/index.ts:128-133 | for honest ids, the ids differ exactly when some canonical field differs |
| `Cards.DiffExplainsId` | packages/core/src/index.ts:128-177 | the exact family of id changes that the diff leaves unexplained: the cost records differ outside their five declared parts and nothing else differs |
| `Cards.DiffIsCompleteExplainer` | packages/core/src/index.ts:128-177 | for cards with exactly the declared cost parts, `changed` holds exactly when the id or the key changed |
| `Cards.UndeclaredCostGoesUnreported` | packages/core/src/index.ts:151-159 | concrete cards whose ids differ while the diff reports nothing |
| `CardFields.RecordNames` | packages/core/src/index.ts:34-48 | each canonical field stands in the hashed record under its own name |
| `CardFields.RecordHasNoOtherNames` | packages/core/src/index.ts:64-74 | the hashed record has no member under any other name |
| `CardFields.CostNames` | packages/core/src/index.ts:148-156 | each compared part of the cost is the member of that name |
| `CardFields.ApprovalRequiredByName` | packages/core/src/index.ts:109-128 | a diff requires approval exactly when the cards differ in version, idempotent, input, output, provider, requiredScopes, attestation, the key, or the side effects, reversibility, risk tier or confirmation part of the cost |
| `CardFields.ChangedByName` | packages/core/src/index.ts:134-177 | a diff reports a change exactly when one of these or a descriptive field differs, an id change exactly when the ids differ, a key change exactly when the keys differ |
| `CardFields.ChangesInOrder` | packages/core/src/index.ts:147-169 | a diff lists its changes once each and in the order of its comparisons |
| `CardProvenance.VerifiedCardWasSigned` | packages/core/src/index.ts:87-101 | a card that verifies under a key only its owner can use has the id and the canonical content of a card the owner signed; no manifest, registry or receipt passes for one |
| `Promotion.RiskRankRespectsCanon` | packages/client/src/promotion-policy.ts:38-42 | the rank of a risk tier does not depend on anything canonical equality ignores |
| `Promotion.EscalationSeen` | packages/client/src/promotion-policy.ts:75-82 | the policy sees an escalation exactly when the new tier ranks above the old one |
| `Promotion.EvaluatePromotion` | packages/client/src/promotion-policy.ts:49-85 | the reasons collected are exactly the policy's objections, in order, and promotion means there is none |
| `Promotion.PromotionBounds` | packages/client/src/promotion-policy.ts:49-85 | what a promotion cannot change without the matching permission: breaking fields, the key, the risk tier |
| `Promotion.EmptyPolicyPromotesReviewOnly` | packages/client/src/promotion-policy.ts:3-12 | the empty policy promotes exactly the changes that pass the audit and need no approval |
| `CardFields.TiersRanked` | packages/client/src/promotion-policy.ts:35-42 | danger ranks above caution, and caution above every other text and above no tier at all |
| `Client.MemoryPinStore.Set` | packages/client/src/pins.ts:18-28 | a pin replaces the tool's earlier pin and no other |
| `Client.MemoryPendingAuditQueue.Enqueue` | packages/client/src/audit-queue.ts:33-51 | a parked update replaces the tool's earlier one |
| `Client.GlyphClient.GetCard` | packages/client/src/index.ts:407-418 | fetching caches a card only if it carries a signature and a key and verifies |
| `Client.GlyphClient.Inspect` | packages/client/src/index.ts:474-488 | new, revoked, unchanged or changed, with the diff from the pin |
| `Client.GlyphClient.EnsureApproved` | packages/client/src/index.ts:705-774 | the pin gate: trust on first use, automatic approval of review-only changes, parking, or refusal |
| `Client.GlyphClient.EnforceTrust` | packages/client/src/index.ts:677-697 | the provider gate |
| `Client.GlyphClient.EnsureAttested` | packages/client/src/index.ts:935-983 | the attestation gate |
| `Client.GlyphClient.Call` | packages/client/src/index.ts:426-458 | the three gates in order, then the receipt check against the pin |
| `Client.GlyphClient.ApproveCard` | packages/client/src/index.ts:494-510 | approval verifies the card and refuses a revoked tool without `reinstate` |
| `Client.GlyphClient.RevokeTool` | packages/client/src/index.ts:518-534 | revocation marks an existing pin and is idempotent |
| `Client.GlyphClient.ProcessAudits` | packages/client/src/index.ts:827-857 | every parked update is audited, then decided one after the other |
| `Client.GlyphClient.Audit` | packages/client/src/index.ts:875-917 | one audit: signature, manifest, attestation, and the verdict they give |
| `GovernanceProofs.ParkedDiffAgrees` | packages/client/src/index.ts:756-762 | a parked diff agrees with the diff from the current pin on every breaking field, although the pin may have moved since |
| `GovernanceProofs.ExplainsExactly` | packages/client/src/index.ts:756-762 | a parked diff explains two pins exactly when these agree on every breaking field |
| `GovernanceProofs.FitsExactly` | packages/client/src/promotion-policy.ts:49-85 | every report and every policy that promote a parked diff keep the step from the pin to the parked card within that policy's bounds exactly when the diff fits the pin: it reports what the step breaks, changes and escalates |
| `GovernanceProofs.NextKeepsAgreeing` | packages/client/src/index.ts:705-774 | a step keeps the parked diff of a tool in agreement with its pin exactly when it is no human approval of a card beside the parked one that changes a breaking field of the pin |
| `GovernanceProofs.NextKeepsFitting` | packages/client/src/index.ts:705-774 | a step keeps the parked update of a tool fitting its pin exactly when it is no human approval, beside that update, of another card it does not fit |
| `GovernanceProofs.RunKeepsFitting` | packages/client/src/index.ts:705-857 | a run leaves no unfit update where the cards humans approved beside a parked update of the tool, the parked card itself included, were ones it fits |
| `GovernanceProofs.PinsStayWithinPolicy` | packages/client/src/index.ts:827-857 | from every state whose parked update fits the pin, over every run without human approval of the tool, whatever humans approve for other tools: no breaking field of its pin changes without `allowBreaking`, its key not without `allowKeyChange`, its risk tier does not rise without `allowRiskEscalation` |
| `GovernanceProofs.GovernedFromTheStart` | packages/client/src/index.ts:705-857 | the same from an empty client, after every history that left no update parked for the tool that does not fit its pin |
| `GovernanceProofs.ApprovalHarmlessExactly` | packages/client/src/index.ts:494-510 | approving a card beside a parked update keeps what the next audit does to the pin within bounds, under every policy and audit, exactly when the update fits the card |
| `GovernanceProofs.UnfitApprovalBreaksPolicy` | packages/client/src/index.ts:827-857 | when it does not fit, the policy that withholds just what the diff hides promotes the parked card over the approved one, out of its own bounds |
| `GovernanceProofs.StaysWithinEveryPolicyExactly` | packages/client/src/index.ts:827-857 | an unrevoked pin stays within every policy over every run without human approval of the tool exactly when the verifiable update parked for it, if any, fits it |
| `GovernanceProofs.RevokedStaysRevoked` | packages/client/src/index.ts:513-534 | over every run a revoked pin stays revoked unless a human reinstates that tool |
| `GovernanceProofs.RevokedFromTheStart` | packages/client/src/index.ts:513-534 | the same after any history of an empty client |
| `GovernanceProofs.PostedOnlyWithPin` | packages/client/src/index.ts:705-774 | a call reaches the server only under an unrevoked pin that holds the card presented, or with that card parked beside the stable pin |
| `GovernanceProofs.RevokedIsNeverPosted` | packages/client/src/index.ts:705-774 | after any history of an empty client, a tool whose pin is revoked is never called |
| `GovernanceProofs.StrictPinsAreVerified` | packages/client/src/index.ts:731-737 | in secure mode without automatic approval every pinned card verifies and carries its tool's name, over every run from an empty client |
| `GovernanceProofs.ReturnedEnvelopeMatchesPin` | packages/client/src/index.ts:437-457 | with receipt verification on, an envelope is returned only if its receipt passes the six checks against the pin |
| `GovernanceProofs.ReturnedFromTheStart` | packages/client/src/index.ts:437-457 | after any history of an empty client, an envelope returned in secure mode passed the six checks against an unrevoked pin |
| `GovernanceProofs.NamedFieldsStay` | packages/client/src/index.ts:827-857 | the same by name: without `allowBreaking`, and with no human approving the tool, the version, schemas, provider, scopes, attestation, key and behavioural cost of its pin stay as they are over every run |
| `ClientGates.FetchExactly` | packages/client/src/index.ts:407-418 | a fetch yields what was served exactly when it is unsigned or verifies, and caches it exactly when it verifies |
| `ClientGates.CallPostedExactly` | packages/client/src/index.ts:426-439 | a call is posted exactly when the pin gate lets the card at hand through, and, if enabled, its key is listed for its provider (or the provider is unknown and that is allowed), and, if required, its attestation is trusted |
| `ClientGates.BlockedBecause` | packages/client/src/index.ts:426-433 | the error of a blocked call is that of the first gate that refuses, and says why |
| `ClientGates.CallLeavesExactly` | packages/client/src/index.ts:705-774 | what a call leaves of pins and queue, posted or not: a new card or a review-only change is pinned, any other change is parked, all else stays |
| `ClientGates.TrustExactly` | packages/client/src/index.ts:677-696 | the trust gate looks at the cached or served card, and lets it through exactly when its nonempty key is listed for its provider, or the provider is unknown and that is allowed |
| `ClientGates.AttestationExactly` | packages/client/src/index.ts:935-983 | the attestation gate lets a card through exactly when its name fits and its risk tier needs no attestation, or it carries one that some verifier trusts |
| `ClientGates.ReturnedExactly` | packages/client/src/index.ts:440-457 | a posted call returns the response exactly when receipts are not verified or its receipt is accepted for the pin |
| `ClientGates.ApproveExactly` | packages/client/src/index.ts:494-510 | an approval succeeds exactly when the card verifies and its tool is not revoked, or is to be reinstated; it then pins that card, unrevoked, and touches nothing else |
| `ClientGates.RevokeExactly` | packages/client/src/index.ts:518-534 | a revocation of a pinned tool marks that pin as revoked, keeps its card, and changes nothing else; without a pin it fails and changes nothing |
| `ClientGates.RevocationBlocks` | packages/client/src/index.ts:512-534 | after any history of an empty client that pins a tool, a revocation followed by any steps that do not reinstate it leaves every call of the tool blocked |
| `ClientGates.ManifestJudgedExactly` | packages/client/src/index.ts:568-589 | a manifest counts as valid exactly when it names the tool, verifies under its own and the pinned key, and its `newCardId` and `previousCardId` are the ids of the parked card and of the current pin |
| `ClientGates.ReportExactly` | packages/client/src/index.ts:875-917 | an audit passes exactly when the parked card verifies, no manifest is served or the one served describes the update, and its attestation is absent or trusted |
| `ClientGates.PromotesByName` | packages/client/src/promotion-policy.ts:49-85 | a policy promotes a passed audit exactly when each class of change between the two cards, by the names of their fields, is allowed and each proof it requires is there |
| `ClientGates.ReasonsExactly` | packages/client/src/promotion-policy.ts:53-84 | a decision gives the reasons of the checks that fail, once each and in the order of the checks |
| `ClientGates.DecisionsExactly` | packages/client/src/index.ts:827-857 | a pass answers for the parked updates in their order, each time whether that update was promoted |
| `ClientGates.ProcessAuditsExactly` | packages/client/src/index.ts:827-857 | a pass over all parked updates, tool by tool: an update that passes the policy becomes the pin and is no longer parked, every other pin and parked update stays |
| `ClientGates.AuditMovesOnlyAsManifested` | packages/client/src/index.ts:875-893 | after any history of an empty client, under a policy that requires a manifest, an audit moves a pin only to a verifying card that a manifest signed by the pinned key names as its successor |
| `CardProvenance.PinnedCardWasSigned` | packages/client/src/index.ts:721-734 | in strict secure mode, after any history, a pinned card whose key only its owner can use is one the owner signed under the name of the tool |
| `Receipts.SealedEnvelopeAccepted` | packages/server/src/server.ts:648-690 | every envelope the handler seals passes the six client checks when the pin is the served card |
| `Receipts.AcceptedExactly` | packages/client/src/index.ts:618-670 | the six checks by the names of the receipt's members: a receipt is accepted exactly when the pinned key signed it, and it is about the pinned card, this payload, this inspection and this call |
| `Receipts.ReceiptAnswersOneCall` | packages/client/src/index.ts:655-662 | one receipt is never accepted for two call ids, two cards or two keys |
| `Receipts.ReceiptBindsPayload` | packages/client/src/index.ts:643-653 | an accepted receipt fixes the payload and the inspection report up to key order |
| `Receipts.OnlyReceiptsPassForReceipts` | packages/core/src/index.ts:187-221 | a signature over a card id or over any object without `glyphId`, such as a manifest, a key registry or an entry of one, never passes for a signature over a receipt |
| `Receipts.AcceptedWasServed` | packages/client/src/index.ts:618-663 | whatever record of honest cards, receipts and other objects holds all that was signed with a key: every payload accepted under it is that of a recorded execution for this very call of the pinned card |
| `Stores.MemoryConfirmationStore.Issue` | packages/server/src/stores.ts:51-53 | a ticket is stored under its token |
| `Stores.MemoryConfirmationStore.Consume` | packages/server/src/stores.ts:55-59 | fetch and delete in one step |
| `Stores.MemoryConfirmationStore.SweepAll` | packages/server/src/stores.ts:61-71 | the sweep drops exactly the expired tickets, and reports how many are left and the earliest expiry |
| `Stores.UnexpiredIs` | packages/server/src/stores.ts:61-71 | what a full sweep leaves is exactly the unexpired tickets, fewer than before if one had expired |
| `Stores.EarliestIs` | packages/server/src/stores.ts:62-70 | the reported expiry is the least among the tickets left |
| `Stores.MemoryDedupeStore.Recover` | packages/server/src/stores.ts:105-113 | a live response is returned; an expired one is dropped |
| `Stores.MemoryDedupeStore.Keep` | packages/server/src/stores.ts:115-127 | a batch of expired responses is swept, then the new one is stored |
| `Stores.LiveResponsesSurvive` | packages/server/src/stores.ts:115-127 | the batched sweep never removes a live response |
| `Stores.RememberIs` | packages/server/src/stores.ts:115-127 | after a put the key holds the new response and every other live key still holds its own |
| `Stores.RecallIs` | packages/server/src/stores.ts:105-113 | a lookup finds a response exactly while it is live, drops it once it is not, and leaves every other key alone |
| `Stores.RememberSweepsAHundred` | packages/server/src/stores.ts:115-127 | a put of a new key takes a hundred expired responses away first, or all of them if they are fewer |
| `Stores.DedupeKeyInjective` | packages/server/src/server.ts:553-554 | the key determines glyph, call id and input hash when neither name followed by ':' begins the other |
| `Stores.SharedKeysExactly` | packages/server/src/server.ts:553-554 | two glyphs can share a key exactly when one name, followed by ':', begins the other |
| `RateLimit.MemoryRateLimitStore.Record` | packages/server/src/stores.ts:134-156 | a hit sweeps a batch, opens or continues the key's window, and returns its count and end |
| `RateLimit.Limit` | packages/server/src/middleware.ts:79-89 | a request is served while the count is within the limit, and refused with the seconds until the window ends otherwise |
| `RateLimit.CountIsHitsSinceOpening` | packages/server/src/stores.ts:149-155 | the count is the number of the key's hits since its window opened |
| `RateLimit.StoreRepresents` | packages/server/src/stores.ts:139-155 | whatever the batched sweeps removed, every answer is the one computed from the key's arrival times alone |
| `RateLimit.HitSweepsAHundred` | packages/server/src/stores.ts:139-155 | a hit on a new key takes a hundred closed windows away first, or all of them if they are fewer |
| `RateLimit.StoreWithinPeak` | packages/server/src/stores.ts:139-148 | the store never holds more entries than the most windows ever live at one hit |
| `RateLimit.BurstBound` | packages/server/src/middleware.ts:79-89 | at most 2 * max - 1 requests of a key are served in any interval of one window length; `max` if a window is one millisecond; none if the limit or the window is below one |
| `RateLimit.BurstBoundIsTight` | packages/server/src/middleware.ts:79-89 | for every limit and window a history that reaches this bound |
| `RateLimit.RetryAfterSuffices` | packages/server/src/middleware.ts:84-87 | waiting the advertised seconds closes the window; a second less does not |
| `Server.MissingScopesIs` | packages/server/src/policy.ts:31-38 | the missing scopes are exactly the required ones the caller does not hold |
| `ServerHandlers.GlyphServer.RegisterGlyph` | packages/server/src/server.ts:231-242 | registration signs the card once; a taken name changes nothing |
| `ServerHandlers.GlyphServer.Sweep` | packages/server/src/server.ts:438-471 | the first stretch of prepare: lookup, scope gate, sweep |
| `ServerHandlers.GlyphServer.IssueTicket` | packages/server/src/server.ts:473-504 | the second stretch of prepare: refuse with Retry-After at the cap, or store a ticket bound to glyph and input |
| `ServerHandlers.GlyphServer.LookUp` | packages/server/src/server.ts:507-558 | the first stretch of call: lookup, scope gate, replay lookup |
| `ServerHandlers.GlyphServer.Confirm` | packages/server/src/server.ts:558-589 | replay, or consume the confirmation token |
| `ServerHandlers.GlyphServer.Check` | packages/server/src/server.ts:590-602 | the consumed ticket must be unexpired and name this glyph and this input |
| `ServerHandlers.GlyphServer.Finish` | packages/server/src/server.ts:605-690 | seal the handler's output, record the response, answer |
| `ServerProofs.ScopeGate` | packages/server/src/server.ts:457-466 | the gate passes exactly when the caller holds every required scope |
| `ServerProofs.ConfirmedRunsMapToTickets` | packages/server/src/server.ts:560-602 | over every interleaving, runs of glyphs whose card has a truthy `requiresConfirmation` in its cost map injectively to tickets issued for the same glyph and input, unexpired at the check, both requests having held the scopes of the card |
| `ServerProofs.EveryRunHeldScopes` | packages/server/src/server.ts:531-545 | over every interleaving, the caller of every run holds every text in the card's `requiredScopes` |
| `ServerGates.RegisteredCardVerifies` | packages/server/src/server.ts:231-242 | a registered card with its honest id verifies under the server's key and keeps its content; a taken name keeps its glyph |
| `ServerGates.PrepareExactly` | packages/server/src/server.ts:438-505 | a prepare request sweeps if the caller holds the scopes, and issues a ticket for this glyph and input and for five minutes exactly when fewer than the cap are left |
| `ServerGates.RetryAfterIsLeast` | packages/server/src/server.ts:474-478 | a refused prepare advertises the least number of whole seconds, and at least one, after which the earliest ticket has expired |
| `ServerGates.WelcomeCall` | packages/server/src/server.ts:547-602 | a call with the scopes runs its handler exactly when no live response is recorded under its name, call id and input, and, if the card asks for confirmation, its token is that of an unexpired ticket for this glyph and input; the token is used up either way |
| `ServerGates.UnwelcomeCall` | packages/server/src/server.ts:507-545 | a call of an unknown glyph, or without the scopes, changes nothing, its token included |
| `ServerGates.PreparedCallRuns` | packages/server/src/server.ts:488-602 | with the token just issued, and the same input up to key order, a call passes the confirmation gate exactly before five minutes have passed |
| `ServerGates.FinishExactly` | packages/server/src/server.ts:645-691 | a finished handler answers with its sealed output, recorded for the time-to-live if the call has a key; a failed one leaves no trace |
| `ServerGates.ReceiptIds` | packages/server/src/server.ts:651-655 | the receipt carries the call id and the id of the card under their names |
| `ServerGates.ReceiptHashes` | packages/server/src/server.ts:656-657 | it carries the hashes of input and output under their names |
| `ServerGates.ReceiptInspection` | packages/server/src/server.ts:652-658 | it carries the hash of the sanitizer's report, and its own version |
| `ServerGates.ReceiptSource` | packages/server/src/server.ts:655-663 | it carries the name of the glyph and the key of the server |
| `ServerGates.ReceiptClientCallId` | packages/server/src/server.ts:664-664 | it carries the client's call id exactly when the call had a nonempty one |
| `ServerGates.ReceiptRiskTier` | packages/server/src/server.ts:659-659 | it carries the card's risk tier, or none |
| `ReplayProofs.ReplayedAnswersWereRecorded` | packages/server/src/server.ts:547-558 | every replayed answer was recorded by an earlier run of the same glyph, call id and input hash, less than the time-to-live before |
| `ReplayProofs.RunsAgainExactly` | packages/server/src/server.ts:547-558 | over every run, the handler ran for a call within the time-to-live of a recorded response of the same triple exactly when the call's lookup came before the recording |
| `ReplayProofs.OverlappingCallsRunTwice` | packages/server/src/server.ts:547-558 | so calls that overlap are not covered: for every glyph that asks for no scope and no confirmation, the same call sent twice at once runs the handler twice |
| `ReplayProofs.EveryAnswerAccepted` | packages/server/src/server.ts:648-690 | every answer, fresh or replayed, passes the six client checks against the served card, and that card verifies |
| `ReplayProofs.AcceptedIsAnAnswer` | packages/client/src/index.ts:618-663 | the converse over every run: if nobody else can sign with the server's key, whatever envelope a client accepts carries the payload of a fresh answer of that run to this very call of the pinned card |
| `BacklogProofs.BacklogStaysNearCap` | packages/server/src/server.ts:469-494 | with at most C prepares between sweep and put, pending tickets never exceed the cap by more than C - 1 |
| `BacklogProofs.InterleavedPreparesReachBound` | packages/server/src/server.ts:469-494 | that bound is reached for every cap and every C from one on: some possible run with at most C prepares between sweep and put ends with cap + C - 1 pending tickets |
| `BacklogProofs.CapRespectedExactly` | packages/server/src/server.ts:469-494 | the cap is respected on every run exactly when no two prepares are ever between sweep and put at once |
| `BacklogProofs.RetryAfterFreesSlot` | packages/server/src/server.ts:469-485 | over every run from a refused prepare to a later one without a ticket issued in between: after the advertised seconds the later one meets a smaller backlog, below the cap if the first met one just at the cap; if no ticket is consumed either, it does so exactly from the earliest expiry on, less than a second before |
| `BacklogProofs.ZeroCapIssuesNothing` | packages/server/src/server.ts:473-485 | a cap of zero never issues a ticket |
| `Pointers.TokenRoundTrip` | packages/core/src/index.ts:362 | unescaping an escaped reference token gives the key back |
| `Pointers.ArrayChildren` | packages/adapters/openapi/src/index.ts:521-522 | an array has its items under their indices, without leading zeros, and its length; nothing else is its own |
| `Pointers.EscapeTokenUnit` | packages/core/src/index.ts:361-362 | a tilde is written `~0`, a slash `~1`, and every other unit as it is |
| `Pointers.SplitPath` | packages/core/src/index.ts:384-398 | a path splits back into its escaped keys |
| `Pointers.PathInjective` | packages/core/src/index.ts:384-398 | a path determines the keys it was built from |
| `Pointers.PointerLookup` | packages/adapters/openapi/src/index.ts:516-528 | the loop follows the unescaped parts through objects and arrays, and yields undefined everywhere else |
| `Pointers.FollowPath` | packages/adapters/openapi/src/index.ts:516-528 | a path built from keys, read back as a local reference, reaches what the keys reach |
| `Pointers.ReadTokenEscapes` | packages/core/src/index.ts:362 | escaping a token that was read gives the token back, so escaping and reading are inverse on the tokens of RFC 6901 |
| `Pointers.PathsArePointers` | packages/core/src/index.ts:384-398 | the paths built from keys are exactly the texts with the syntax of RFC 6901 |
| `RefResolver.FollowRefs` | packages/adapters/openapi/src/index.ts:516-528 | the target of a reference contains only references of the document, which is what makes inlining terminate |
| `RefResolver.ResolveRefs` | packages/adapters/openapi/src/index.ts:497-514 | the recursive loop over any document, cyclic ones included, terminates with the specified object, prototypes set by `__proto__` members included, and its own members are the specified JSON value |
| `RefProofs.ResolveLeavesNoRef` | packages/adapters/openapi/src/index.ts:497-514 | if every `$ref` value is a string the output has no `$ref` key, and a second pass against any document changes nothing |
| `RefProofs.RefLeftExactly` | packages/adapters/openapi/src/index.ts:497-514 | an own `$ref` key is left in the output exactly when inlining met, uncut, one whose value is no string, and a string there exactly when that value resolved to a string |
| `RefProofs.SecondPassExactly` | packages/adapters/openapi/src/index.ts:497-514 | a second pass, against whatever document, changes nothing exactly when the first met, uncut, no object whose `$ref` is no string but resolves to one, or which inherits a string `$ref` from what its `__proto__` member resolves to (unless that reference is not local and the object has no other member) |
| `RefProofs.NestedRefBreaksSecondPass` | packages/adapters/openapi/src/index.ts:500-505 | a document on which the second pass, against that same document, changes the value |
| `RefProofs.InheritedRefBreaksSecondPass` | packages/adapters/openapi/src/index.ts:507-511 | a document whose output is the empty object, of which a second pass makes a string |
| `RefProofs.InliningIsUnfoldingExactly` | packages/adapters/openapi/src/index.ts:497-514 | inlining cuts nothing exactly when the node unfolds completely, and then the result is that unfolding |
| `RefProofs.UncutIgnoresSeen` | packages/adapters/openapi/src/index.ts:502-505 | where nothing is cut, the result does not depend on the references seen before |
| `RefProofs.AcyclicInliningIsUnfolding` | packages/adapters/openapi/src/index.ts:497-514 | on an acyclic reference graph inlining is full unfolding |
| `RefProofs.ReferenceIsItsTarget` | packages/adapters/openapi/src/index.ts:497-514 | an object whose `$ref` is a path of the document stands for what the path reaches, inlined in turn, or for the empty schema if it leads nowhere or is being inlined already |
| `Utf16.EncodeDecode` | packages/core/src/index.ts:347-354 | splitting a string into code points loses nothing, lone surrogates included |
| `Stripping.PassesAreOneFilter` | packages/core/src/index.ts:364-372 | the four passes, each over what the last one left, are one filter over the code points of the input, and so are their counts |
| `Stripping.CountsAreCodePointsRemoved` | packages/core/src/index.ts:366-371 | the counts add up to the code points removed |
| `Stripping.AnyOrderWillDo` | packages/core/src/index.ts:356-372 | on well-formed UTF-16 the passes may run in any order |
| `Stripping.CleanStringIdempotentExactly` | packages/core/src/index.ts:404-409 | a second run finds nothing exactly when no lone surrogates come to form a tag character |
| `Stripping.WellFormedTextIdempotent` | packages/core/src/index.ts:404-409 | on well-formed UTF-16 the sanitizer is idempotent |
| `Stripping.SplitTagSurvivesOnce` | packages/core/src/index.ts:404-409 | a string on which it is not: a tag split by a zero-width space |
| `Stripping.NoFindingNoChange` | packages/core/src/index.ts:364-382 | a string without findings is not changed |
| `SanitizerAgreement.ClassesAgree` | packages/core/src/index.ts:317-345 | on every character each class of the core is that of the Go SDK, but for U+2060 |
| `SanitizerAgreement.SameTextExactly` | sdks/go/glyphprotocol/sanitize.go:35-93 | both SDKs keep the same text of a string exactly when it has no U+2060, and then report the same kinds with the same counts |
| `SanitizerAgreement.SameReportExactly` | sdks/go/glyphprotocol/sanitize.go:71-93 | with the same normalization both SDKs report the same about a string exactly when it has no U+2060, and normalization leaves what is kept alone or changes at most one code point on its own |
| `SanitizerAgreement.NfkcCountIs` | packages/core/src/index.ts:375-378 | the count of a normalization is the number of code points that are not their own normal form |
| `SanitizerAgreement.KindsInOrder` | packages/core/src/index.ts:410-420 | the order in which a report lists the kinds found at one path |
| `Sanitizer.RunPasses` | packages/core/src/index.ts:364-372 | the loop over the strip classes computes the passes and their findings |
| `Sanitizer.SanitizeString` | packages/core/src/index.ts:364-382 | passes, then normalization with its own finding |
| `Sanitizer.SanitizeValue` | packages/core/src/index.ts:384-402 | the walk cleans every string, keeps keys, and pushes located findings |
| `Sanitizer.CleanedInPlace` | packages/core/src/index.ts:384-402 | place by place: what keys other than `__proto__` reach in the cleaned value is what they reach in the input, cleaned |
| `Sanitizer.Sanitize` | packages/core/src/index.ts:410-420 | the cleaned value with its findings sorted by path and kind, `modified` exactly if there is one |
| `Sanitizer.SanitizeIdempotentExactly` | packages/core/src/index.ts:404-420 | a second run reports no modification exactly when every string settles, and then returns the value unchanged |
| `Reports.ReportStrictlyIncreasing` | packages/core/src/index.ts:416-418 | findings are strictly increasing in path and kind |
| `Reports.ReportIsWhatKeysReach` | packages/core/src/index.ts:384-402 | a finding is reported exactly when its path is built from keys that reach a string about which it is reported |
| `Reports.ReportPointsAtStrings` | packages/core/src/index.ts:384-420 | a finding is reported exactly when its path has the syntax of RFC 6901 and, read back as a JSON Pointer, reaches a string about which just that kind and count are reported |
| `Reports.ReportIgnoresKeyOrder` | packages/core/src/index.ts:389-399 | the report does not depend on the order of keys in any object |
| `Reports.ReportInOrder` | packages/core/src/index.ts:410-420 | a report lists its findings by path, and under one path by the name of the kind, both in the order of code units |
| `GoSanitizer.StripRunes` | sdks/go/glyphprotocol/sanitize.go:58-69 | the append loop keeps exactly the runes that do not match, and counts the others |
| `GoSanitizer.CleanRunes` | sdks/go/glyphprotocol/sanitize.go:71-93 | one filter with the SDK's own classes; each kind is reported once, with the number of its runes in the whole input; these counts add up to the runes removed; no change without a finding |
| `GoSanitizer.EachClassOnItsOwn` | sdks/go/glyphprotocol/sanitize.go:71-86 | each pass counts in what the earlier ones left just what it would count in the input |
| `GoSanitizer.CleanRunesIdempotent` | sdks/go/glyphprotocol/sanitize.go:71-93 | cleaning a cleaned string changes nothing |
| `GoSanitizer.SanitizeString` | sdks/go/glyphprotocol/sanitize.go:71-93 | the string part of the walk, on bytes: read the characters, clean them, write them |
| `GoSanitizer.SanitizeValue` | sdks/go/glyphprotocol/sanitize.go:95-120 | the walk over slices and maps, in the order they are ranged over, with that string part |
| `GoSanitizer.Sanitize` | sdks/go/glyphprotocol/sanitize.go:124-136 | the cleaned value with sorted findings, with that string part, `modified` exactly if there is a finding |
| `GoSanitizer.IterationOrderDoesNotMatter` | sdks/go/glyphprotocol/sanitize.go:106-136 | neither cleaned value nor report depends on the iteration order of any map |
| `GoSanitizer.GoSanitizeIdempotent` | sdks/go/glyphprotocol/sanitize.go:124-136 | on every value a second run reports no modification and returns the value unchanged |
| `GoSanitizer.UnreportedIsUnchangedExactly` | sdks/go/glyphprotocol/sanitize.go:58-93 | a value about which nothing is reported is returned unchanged exactly when its strings are valid UTF-8 |
| `GoSanitizer.Itoa` | sdks/go/glyphprotocol/sanitize.go:138-161 | the fixed buffer holds the decimal text of every 64-bit integer, except that of the least one only the sign is printed |
| `GoCanonical.CompareUtf16` | sdks/go/glyphprotocol/canonical.go:50-59 | the index loop decides the lexicographic order of UTF-16 code units |
| `GoCanonical.KeyLessIsStrictTotal` | sdks/go/glyphprotocol/canonical.go:46-59 | that order is a strict total order on valid strings |
| `GoCanonical.AstralSortsBelow` | sdks/go/glyphprotocol/canonical.go:46-49 | it differs from the order of code points: characters above U+FFFF come before U+E000 to U+FFFF |
| `GoCanonical.AppendCanonical` | sdks/go/glyphprotocol/canonical.go:83-131 | the one-pass writer fails exactly on values with a number that is not finite, and appends the canonical text otherwise |
| `GoCanonical.CanonicalBytes` | sdks/go/glyphprotocol/canonical.go:136-142 | the text, or the error and no text |
| `GoAgreement.WrittenIsPrinted` | sdks/go/glyphprotocol/canonical.go:83-131 | with a printer that prints the strings and keys of the value as the core does, the one-pass writer emits the printed form of the value with all keys sorted by code units, at every depth |
| `GoAgreement.WriterAgreesExactly` | sdks/go/glyphprotocol/canonical.go:77-131 | with a printer that prints the strings and keys of the value as the core does, the writer emits what the core prints after sorting exactly when, in every object, no key is `__proto__` and code-unit order puts every two keys as a JavaScript object enumerates them |
| `GoAgreement.WriterAgreesWithCore` | sdks/go/glyphprotocol/canonical.go:77-131 | so the two agree on every value without array-index or `__proto__` keys |
| `GoAgreement.ProtoKeyDisagrees` | sdks/go/glyphprotocol/canonical.go:92-104 | they disagree on every object with a `__proto__` key |
| `GoAgreement.NineAndTenDisagree` | sdks/go/glyphprotocol/canonical.go:92-104 | they disagree on an object with the array-index keys 9 and 10 |
| `GoStrings.GoTextIsCoreTextExactly` | sdks/go/glyphprotocol/canonical.go:62-131 | with the string encoder of `encoding/json`, the writer emits the core's text exactly when, in every object, no key is `__proto__` and both orders put every two keys alike, and no string or key has U+2028 or U+2029 |
| `GoStrings.SeparatorDisagrees` | sdks/go/glyphprotocol/canonical.go:62-75 | the two texts differ on every string with U+2028 or U+2029 |
| `GoStrings.SeparatorsEscaped` | sdks/go/glyphprotocol/canonical.go:62-75 | U+2028 and U+2029 are written as escapes, every other code unit as the core writes it |
| `KeyRegistries.VerifyKeyRegistry` | packages/core/src/key-registry.ts:58-88 | the loops accept exactly the registries whose fingerprints match, whose entries are vouched for by the entry they name, and whose unrevoked active key signed them |
| `KeyRegistries.ResolveKey` | packages/core/src/key-registry.ts:101-119 | the first entry of the fingerprint decides the status |
| `KeyBinding.RegistryPayloadBinds` | packages/core/src/key-registry.ts:36-45 | under a collision-free digest two registries have the same signed payload exactly when they agree in every field but the signature, every field of every entry included |
| `KeyBinding.EntryPayloadBinds` | packages/core/src/key-registry.ts:22-30 | two entries have the same signed payload exactly when they agree in fingerprint, key, start of validity and parent |
| `KeyBinding.EntryNames` | packages/core/src/key-registry.ts:36-45 | an entry is signed within its registry under the names of its fields, and optional fields are left out |
| `KeyBinding.VerifiedRegistryWasSigned` | packages/core/src/key-registry.ts:58-88 | a registry that verifies under an active key only its owner can use is one the owner signed, field by field |
| `KeyBinding.VerifiedEntryWasSigned` | packages/core/src/key-registry.ts:65-77 | an entry whose parent's key only its owner can use was authorised by that owner |
| `KeyBinding.VerifiedRegistryIs` | packages/core/src/key-registry.ts:58-88 | a verified registry has version 1.0, entries under the digests of their keys, parents that are there, and an active entry that is there and not revoked |
| `KeyCommands.FileKeyRegistry.Load` | packages/core/src/key-registry.ts:221-230 | only a registry that verifies is loaded and cached |
| `KeyCommands.FileKeyRegistry.Save` | packages/core/src/key-registry.ts:232-240 | a registry that does not verify is refused and nothing changes |
| `KeyCommands.RunKeysInit` | packages/cli/src/commands/keys.ts:21-48 | writes a signed registry of one entry |
| `KeyCommands.RunKeysRotate` | packages/cli/src/commands/keys.ts:57-94 | the registry transition of a rotation; a missing or unverifiable registry is refused and the file left as it is |
| `KeyCommands.RunKeysRevoke` | packages/cli/src/commands/keys.ts:100-137 | the registry transition of a revocation, which the active key never undergoes; a missing or unverifiable registry is refused and the file left as it is |
| `KeyProofs.EveryRegistryIsSound` | packages/core/src/key-registry.ts:137-181 | from a genesis on, whatever keys are passed, every registry on file verifies, has unique fingerprints, exactly one live entry (the last, named active), and every entry signed by its predecessor |
| `KeyProofs.RightKeyRotates` | packages/cli/src/commands/keys.ts:57-94 | with the active private key a rotation succeeds and names the new key |
| `KeyProofs.RightKeyRevokes` | packages/cli/src/commands/keys.ts:100-137 | with the active private key any other entry can be revoked |
| `KeyProofs.WalkEndsAtGenesis` | packages/core/src/key-registry.ts:66-77 | following `signedBy` from the i-th entry reaches the genesis entry in exactly i steps |
| `KeyProofs.StatusExactly` | packages/core/src/key-registry.ts:109-116 | at any time not before it was issued: the last key is active, revoked keys are revoked, all others expired |
| `KeyProofs.RevokedForGood` | packages/cli/src/commands/keys.ts:96-99 | a revoked key resolves as revoked in every later registry, at all times not before that registry was issued |
| `KeyProofs.RevokedAnswerSurvivesExactly` | packages/cli/src/commands/keys.ts:96-117 | at any time whatever, a later registry calls a revoked key revoked exactly when the earlier one did and no command in between revoked it again later than that time |
| `KeyProofs.SecondRevocationUndoesAnswer` | packages/cli/src/commands/keys.ts:113-117 | a retired key revoked at 2 and again at 4 was revoked at 3, and is then only expired at 3 |
| `KeyLifetimes.GenesisExactly` | packages/cli/src/commands/keys.ts:24-48 | a new registry has one entry, for the key that signed it, without a parent, an end or a revocation, and names it active for an hour |
| `KeyLifetimes.RotationExactly` | packages/cli/src/commands/keys.ts:57-80 | with the active key a rotation ends the validity of that entry now, adds one for the new key signed by it, names it active, and changes no other entry |
| `KeyLifetimes.RevocationExactly` | packages/cli/src/commands/keys.ts:100-125 | with the active key a revocation sets date and reason of that entry and changes nothing else |
| `KeyLifetimes.RotationTakesEffect` | packages/core/src/key-registry.ts:101-119 | at every time before the rotation the new key is not yet valid and the old one retired but usable; from then on the new key is active and the old one expired |
| `KeyLifetimes.RevocationTakesEffect` | packages/core/src/key-registry.ts:101-119 | a revoked key resolves as revoked from its revocation on and no sooner |
| `KeyLifetimes.RevocationSparesOthers` | packages/core/src/key-registry.ts:101-119 | every other key resolves as before, at every time |
| `FileStores.FileStore.Set` | packages/client/src/file-pin-store.ts:39-45 | the cache changes at once and a flush is appended to the chain |
| `FileStores.FileStore.Delete` | packages/client/src/file-audit-queue.ts:47-53 | a removal that finds nothing appends no flush |
| `FileStores.FileStore.StartFlush` | packages/client/src/file-pin-store.ts:72-76 | a flush takes its snapshot when it starts |
| `FileStores.FileStore.RenameTemp` | packages/client/src/file-pin-store.ts:78-80 | the complete temporary file replaces the file in one step |
| `FileStoreProofs.FileHoldsPrefix` | packages/client/src/file-pin-store.ts:39-81 | at every point, a crash or a failed flush included, and whatever temporary file was there at the start, the file holds the state after a prefix of the operations; the prefix never shrinks and includes every resolved operation except removals that found nothing |
| `FileStoreProofs.CrashesLoseOnlySuffixes` | packages/client/src/file-pin-store.ts:39-81 | over any number of crashes and restarts, each crash loses at most a suffix of the operations of its run |
| `FileStoreProofs.ResolvedPutsAreDurable` | packages/client/src/file-pin-store.ts:39-45 | a pin whose `set` resolved is in the file |
| `FileStoreProofs.SettledFileIsCache` | packages/client/src/file-audit-queue.ts:74-83 | when every flush has completed the file equals the cache |
| `FileStoreProofs.FailureIsFinal` | packages/client/src/file-pin-store.ts:42-44 | after a failed flush the file never changes again |
| `FileStoreProofs.AlwaysDurableExactly` | packages/client/src/file-audit-queue.ts:47-53 | at every point of a run all resolved operations are in the file exactly when no removal of the run finds nothing in the cache |
| `FileStoreProofs.ResolvedEarlyExactly` | packages/client/src/file-audit-queue.ts:47-53 | an operation that is not in the file yet has resolved exactly when it was a removal that found nothing |
| `FileStoreProofs.RepeatedRemovalResolvesEarly` | packages/client/src/file-audit-queue.ts:47-53 | the least such run: a second removal of a name resolves before the first has reached the file |
| `FileStoreProgress.LastOperationDecides` | packages/client/src/file-audit-queue.ts:37-53 | what the cache holds under a key is decided by the last operation on it |
| `FileStoreProgress.FlushesSettle` | packages/client/src/file-pin-store.ts:39-81 | once as many flushes have succeeded as changes wait, the file is the cache and every waiting promise has resolved |
| `FileStoreProgress.FlushedPutIsOnFile` | packages/client/src/file-pin-store.ts:39-45 | after any history without a failure a pin that is set and flushed is on file under its name, beside the others |
| `FileStoreProgress.FailedFlushIsFinal` | packages/client/src/file-pin-store.ts:39-45 | after any history, once a flush fails the file stays as it is and no later flush completes |
| `FileStoreProgress.FlushedRemovalIsOnFile` | packages/client/src/file-audit-queue.ts:47-53 | after any history without a failure a removal that is flushed leaves the file without that name and with all others |

## Left out

- Number formatting: a number is identified with the literal ECMAScript prints for it, and both printers are taken to print the same literal.
- `undefined`, functions and other values outside JSON, which `JSON.stringify` drops: cards and inputs are taken as parsed JSON.
- The bytes of texts: digests and signatures are functions of the text, not of its UTF-8 form. In the Go SDK a string is a sequence of runes or of bytes, and the UTF-8 codec between them is a parameter, of which idempotence asks that what was written is read back.
- Real cryptography, malformed hex, key generation: parameters, or preconditions met by construction.
- Zod and Ajv: the call handler is modelled from a valid input on, and an output that fails its schema counts as a failed handler.
- HTTP, routing, headers, timeouts, abort signals, logging, hooks (`onCall`, `onPendingAudit`, `onAuditComplete`) and the audit runner's timer.
- Interleaving inside client methods: each public method of the client is one step. Pin reads and writes straddle awaits in the code.
- A client without a pin store or without an audit queue: its gates do nothing.
- `createdAt`, `approvedAt`, `detectedAt`, revocation reasons, notes and wall-clock texts of pins and reports, which no decision reads.
- Risk tiers whose text names a member of `Object.prototype`, or whose `String()` throws.
- Inherited properties in `pointerLookup` (such as `map` on an array): only own properties and the length of an array are followed. The documents of the adapter are taken as `JSON.parse` yields them, so that `__proto__` is an own member there.
- The string encoder of Go's `encoding/json` is not part of the repository: it is modelled for valid UTF-8, without HTML escaping, as Go prints from version 1.22 on.
- `createHash` over streams, `signGlyph` variants, `registerAsync`, the resolver's ranking, `applyDepth`, conformance summaries and lexicon inspection: easy members only.
- `packages/verify-browser` and the Python SDK, which repeat the core.
- The two sanitizers on whole values: they are compared string by string; their walks have their own theorems.
- The Go function `Canonicalize`, which returns a map and so has no order to speak of; the writer `appendCanonical` is modelled instead.
- `StaticKeyRegistry` and `HttpKeyRegistry`, which hold or fetch a registry that was verified the same way.
- Concurrent first loads of the file-backed stores, other writers of the same file, and malformed files: the machine starts with a loaded cache. The order of names inside the file is not modelled.
- Provider trust, attestation and handler outcomes: arbitrary functions of the environment of a call.
