# Verified model of extensible-mcp

A Dafny model of the parts of extensible-mcp, and of its two example applications, in which a mistake would be
hardest to see: the single-use evidence protocol, the derive-plan check and assembler, the Cedar and CEL policy
engines, the base58, did:key and CBOR codecs, dependency ordering, the discovery filter, and the purchase chain of
the commerce demo. `dafny verify dfyconfig.toml` checks all of it.

Code that updates state in the original is a class or a method with loops here, proved against a function of the old
state; the theorems are lemmas about those functions, over every input, every run or every interleaving.

| module | what it holds |
|---|---|
| `Prelude`, `Json`, `JsonPaths` | options; JSON values with ordered keys; what a dotted path names |
| `SpentStore`, `SingleUse`, `SingleUseProtocol` | the store and filter of `replay.py`; all interleavings of concurrent calls |
| `DerivePlan`, `DeriveEval` | the load-time check; the run-time evaluator and assembler of `fetchplan.py` |
| `DeriveGrammar`, `DeriveMeaning` | the derive language as a grammar that the check reads exactly; what its terms mean, and that the two phases of the code compute it |
| `DeriveSoundness`, `DeriveRelations`, `DeriveVocabulary` | what the check rules out; verdicts, removal, stability, reordering; which primitives matter |
| `Cedar`, `CedarLoader`, `CedarStructure`, `Cel`, `PolicyAgreement` | both engines, the loader and what it accepts policy by policy, and the engines' common meaning |
| `Numerals`, `Base58`, `DidKey` | positional numerals, base58 and did:key names |
| `Utf8`, `CborHead`, `Cbor`, `CborExtent`, `WebAuthn` | UTF-8; the CBOR subset and how far a decode depends on its buffer, COSE keys and authenticator data |
| `DependencyOrder`, `Discovery` | the depth-first field order; the bounded session dictionary |
| `Merchant`, `Settlement`, `MerchantDesk`, `ApprovalService`, `Purchase`, `PurchaseProgress` | the purchase chain, its whole-run safety, and runs of it: what can be shipped and what can go wrong |

## Premises

- Single use. `cfg.refusedFrom(id)` is the time from which the inner policy refuses every call with that id, if it
  ever does, and `cfg.availableFrom(cr)` the time from which a credential can be shown. Safety holds if and only if
  every credential is, from the time it can first be shown, reserved until the policy refuses it, or the store has no
  room at all (`SingleUseExactly`, `CoveredExactly`). This is not free in the code: `_credential_expiry` reads only
  `{token}` bundles (src/extensible_mcp/replay.py:52-70), so a `{jws, claims}` credential is reserved for the default
  time only; a policy that accepts a credential during the whole second of its `exp` refuses later than the
  reservation ends; and a credential the policy never refuses is never covered.
- Derive plans. The runtime vocabulary includes the one the plan was checked against; primitives are any functions
  that return a value, no value, or a fault.
- Policies. A check on one input holds, fails, or is undefined; which of its fields are absent decides the last.
- Purchases. Signatures and hashes are ideal; a quote's nonce is new to the desk; the desk's and the settlement key
  differ; the rail treats the nonce as its idempotency key and refuses the same nonce with other parameters. Any
  merchant can be trusted at any time under any id. Which keys can be registered under the desk's own id is a
  parameter of the world: `/trust-merchant` itself restricts nothing
  (examples/agentic-commerce-demo/examples/approval_service.py:347-353).

## Where the code and its promises differ

- The load-time check accepts `over: {"$input": x}` for an `x` that is not a string; the first call then raises
  something other than a fetch error. It also accepts `over: [null]`, where `$item` is then taken for a use outside a
  fold. `PlanSound` states as an if-and-only-if that an accepted plan fails for its shape just when the walk comes to
  an entry with one of these two troubles on the document it has by then; there is a concrete plan for each.
- An order can ship on terms nobody approved once another key is registered under the desk's id
  (`ForeignKeyShipsUnapproved`): a receipt pins nonce, merchant, total and currency, not the items
  (`ReceiptPinsTerms`). `ApprovedTermsExactly` gives the exact condition; `FulfilledMeans` says what holds in every
  run regardless.
- CBOR strings and wide arguments cut off by the end of the buffer are read short rather than refused
  (`CutStringReadsShort`, `CutArgumentReadsShort`), and of two entries with one key the later stands (`LastEntryWins`);
  a decode is independent of what follows its buffer exactly when it ends inside it (`EndsInsideExactly`).
- A pending record marked `fulfilled` need not be paid: the desk's own signed invoice, posted as its commitment, marks
  it before anybody approved it (`FulfilledMarkIsNotPayment`). A record carries a receipt exactly when the
  service signed one for it, and then it is approved and charged once (`ReceiptMeansPaid`). Approving again sets a settled record back to `approved` without making it chargeable again
  (`ReapprovalOnlyResets`); a second record for the same nonce is never settled (`SelectedExactly`).
- A CEL tier that names a check the file does not define raises only when the fold reaches that check
  (`FoldTiersMeans`).

## Model

| member | source | states |
|---|---|---|
| SpentStore.ReserveKeepsBound | src/extensible_mcp/replay.py:116-133 | Reserving never takes the store over its capacity, never drops a live entry, and changes no entry but the reserved one |
| SpentStore.InMemorySpentStore.Prune | src/extensible_mcp/replay.py:116-118 | Pruning keeps exactly the entries that have not expired |
| SpentStore.InMemorySpentStore.Reserve | src/extensible_mcp/replay.py:123-133 | Replayed, full or reserved, in that order after pruning, with the whole new store |
| SpentStore.InMemorySpentStore.Release | src/extensible_mcp/replay.py:135-136 | Removes the key and nothing else |
| SingleUse.CollectedMeaning | src/extensible_mcp/replay.py:213-243 | Each id is claimed once, at the latest time any of its credentials gives: the credential's own expiry, or the default time from now where it has none to read |
| SingleUse.CollectClaims | src/extensible_mcp/replay.py:213-243 | The loop that gathers ids: refused if one credential has none, else the collected claims |
| SingleUse.ReservingMeaning | src/extensible_mcp/replay.py:246-262 | Reserving a set of ids one by one succeeds exactly when all are free and fit, and then the store is the live entries and the claims; otherwise exactly the live entries are left |
| SingleUse.SingleUseFilter.ReleaseAll | src/extensible_mcp/replay.py:276-278 | Pops exactly the held ids |
| SingleUse.SingleUseFilter.ReserveAll | src/extensible_mcp/replay.py:246-262 | All claims are held exactly when every id is free and there is room for each; otherwise the store is left with exactly its live entries, and the outcome says why |
| SingleUse.SingleUseFilter.Check | src/extensible_mcp/replay.py:206-274 | Allowed exactly when the policy admits and every id is free with room; its claims then last at least as long as each credential, and a denied or faulted call leaves none |
| SingleUse.HeldExactly | src/extensible_mcp/replay.py:228-274 | After an allowed call an id of it is held at a later time exactly while one of its credentials with that id has not run out |
| SingleUse.SpentUntilExpiry | src/extensible_mcp/replay.py:246-274 | After an allowed call, any call with one of its ids before that credential runs out is denied, and with nothing else is told the approval was used |
| SingleUseProtocol.StepKeeps | src/extensible_mcp/replay.py:123-136 | Every step of every call keeps the ownership invariant between store entries and calls |
| SingleUseProtocol.SafeWhenCovered | src/extensible_mcp/replay.py:206-274 | Over every interleaving, abandoned calls included, no id authorizes two calls, given that each credential, whenever it can be shown and is accepted, is reserved until the policy refuses it |
| SingleUseProtocol.SingleUseExactly | src/extensible_mcp/replay.py:228-274 | One approval authorizes at most one call over every run if and only if every credential is so covered, or the store has no room |
| SingleUseProtocol.CoveredExactly | src/extensible_mcp/replay.py:52-70 | Coverage credential by credential, judged at the first time it can be shown, from what its expiry field says |
| SingleUseProtocol.ReplayWhenUncovered | src/extensible_mcp/replay.py:228-229 | A run in which an uncovered credential, shown only when it is available and accepted, authorizes two calls |
| SingleUseProtocol.CanAdmit | src/extensible_mcp/replay.py:246-274 | A call whose credential is free and still accepted can be carried through to an allowed answer |
| SingleUseProtocol.Accounting | src/extensible_mcp/replay.py:116-136 | In every run of every configuration the store stays within capacity, and each entry belongs to a call that was not denied |
| SingleUseProtocol.AllowedStays | src/extensible_mcp/replay.py:246-274 | With covered credentials an allowed call's id stays in the store until its reservation expires, which is no sooner than the policy refuses it |
| SingleUseProtocol.QuiescentStore | src/extensible_mcp/replay.py:238-274 | With no call in flight every live entry is an unexpired id of an allowed call; with covered credentials they are all of them |
| SingleUseProtocol.ReasonsExactly | src/extensible_mcp/replay.py:246-274 | Why a step turns a call down: the id is held, else the store is full; the policy raised, or refused; handing ids back keeps the reason |
| SingleUseProtocol.CarriesExactly | src/extensible_mcp/replay.py:211-244 | In every run a call carries exactly the ids of the credentials it arrived with, and with one that cannot be spent it is never allowed |
| SingleUseProtocol.OneCallPerApproval | src/extensible_mcp/replay.py:206-274 | Of two calls that arrive with credentials of one id, however they interleave, no more than one is allowed, where credentials are covered |
| JsonPaths.NavigateLeads | src/extensible_mcp/fetchplan.py:1136-1143 | A path gives a value exactly when its keys lead there, each value the first field of that name in the one before |
| JsonPaths.NavigateDocLeads | src/extensible_mcp/fetchplan.py:1136-1143 | The same from the document under assembly |
| DerivePlan.ValidateUniqueFields | src/extensible_mcp/fetchplan.py:604-622 | The loop refuses exactly the plans that name a field twice |
| DeriveGrammar.ArgumentAcceptedExactly | src/extensible_mcp/fetchplan.py:893-954 | An argument is accepted exactly when it spells a term of the grammar: a literal, an input path, an item path in a fold, one level of applications of declared primitives that consume no key, within the `concat` and `format_int` signatures, and lists of these |
| DeriveGrammar.WrittenAccepted | src/extensible_mcp/fetchplan.py:893-954 | Every such term is accepted as it is written out |
| DeriveGrammar.CandidateAcceptedExactly | src/extensible_mcp/fetchplan.py:858-890 | A literal candidate is accepted exactly when it is scalars, input paths, and lists and objects of those |
| DeriveGrammar.DerivationAcceptedExactly | src/extensible_mcp/fetchplan.py:763-812 | A derive entry is accepted exactly when it spells a well-formed application or fold |
| DeriveGrammar.ReferencedIs | src/extensible_mcp/fetchplan.py:722-760 | The primitives looked up for an entry are the one it names and those its terms apply |
| DeriveGrammar.PlanAcceptedExactly | src/extensible_mcp/fetchplan.py:625-719 | A plan is accepted exactly when no field is named twice, its declarations can be read, and each derive entry spells such a source over available primitives |
| DeriveMeaning.TermWorth | src/extensible_mcp/fetchplan.py:477-510 | A term waits exactly while one of its paths leads nowhere, and otherwise resolving and then evaluating it gives what it means, argument by argument |
| DeriveMeaning.CandidateFilled | src/extensible_mcp/fetchplan.py:1101-1111 | A literal candidate resolves to itself with each input path replaced by what it names |
| DeriveMeaning.FoldGathers | src/extensible_mcp/fetchplan.py:455-475 | A fold gathers what each candidate contributes, in order, or stops at the first fault |
| DeriveMeaning.EntryMeans | src/extensible_mcp/fetchplan.py:1012-1052 | The two phases of the code, over a derive entry as it is spelled, put, omit or abort as the entry means |
| DeriveMeaning.FetchMeans | src/extensible_mcp/fetchplan.py:99-150 | What each kind of fetched source gives, and when its field is left out or aborts |
| DeriveMeaning.ParamsMean | src/extensible_mcp/fetchplan.py:1054-1063 | Parameters wait exactly while a path does, and each is its literal or what its path names |
| DeriveMeaning.InputMeans | src/extensible_mcp/fetchplan.py:1113-1143 | An input argument is worth exactly the value its path's keys lead to, and waits exactly while they lead to none |
| DeriveMeaning.ItemMeans | src/extensible_mcp/fetchplan.py:538-556 | An item path gives exactly what its keys lead to in the candidate, and faults when they lead nowhere |
| DeriveEval.FoldCandidates | src/extensible_mcp/fetchplan.py:455-475 | The fold's loop appends the witnesses of the fold, in order, and stops at its first fault |
| DeriveEval.AssembleLoop | src/extensible_mcp/fetchplan.py:1012-1052 | The assembling loop gives the assembly of the plan, and omits exactly the fields not in it |
| DeriveSoundness.ArgFaithful | src/extensible_mcp/fetchplan.py:893-954 | A valid argument never resolves to a bad shape, and looks up exactly the primitives the check looked up |
| DeriveSoundness.DeriveFaithful | src/extensible_mcp/fetchplan.py:763-813 | A valid entry resolves to a well-typed call over its referenced primitives, or waits, or has a stray `over` path, and the last only then |
| DeriveSoundness.EvalCallSound | src/extensible_mcp/fetchplan.py:434-521 | A well-typed call reports a structural fault exactly when its fold reaches a null candidate for which the arguments read `$item` |
| DeriveSoundness.EntrySound | src/extensible_mcp/fetchplan.py:625-719 | An entry of an accepted plan aborts for its shape, on any document and runtime vocabulary, exactly when it has a stray `over` path or reaches a null candidate |
| DeriveSoundness.PlanSound | src/extensible_mcp/fetchplan.py:625-719 | An accepted plan fails for a shape in a context exactly when the walk comes to an entry with that trouble on the document it has by then |
| DeriveSoundness.NeverMisshapen | src/extensible_mcp/fetchplan.py:625-719 | With string paths and no null among the candidates the walk meets, an accepted plan reaches no structural fault, in any context |
| DeriveSoundness.NullCandidateExactly | src/extensible_mcp/fetchplan.py:477-499 | A candidate is safe under every vocabulary exactly when it is not null or nothing reads `$item` |
| DeriveSoundness.StrayOverAccepted | src/extensible_mcp/fetchplan.py:798-807 | A concrete accepted plan whose assembly raises for every context |
| DeriveSoundness.NullCandidateAccepted | src/extensible_mcp/fetchplan.py:487-499 | A concrete accepted plan that faults on a null candidate |
| DeriveVocabulary.WalkUsesReferenced | src/extensible_mcp/fetchplan.py:722-760 | Vocabularies that agree on the referenced primitives assemble an accepted plan alike |
| DeriveVocabulary.CallNeedsName | src/extensible_mcp/fetchplan.py:742-760 | Under any vocabulary, an exercised call is caught out by a missing primitive exactly when it names it |
| DeriveVocabulary.ReferencedExactly | src/extensible_mcp/fetchplan.py:722-760 | An accepted plan whose entries are exercised assembles alike without a primitive exactly when the collected set does not hold it |
| DeriveRelations.VerdictsStayInside | src/extensible_mcp/fetchplan.py:434-510 | Replacing a key consumer's non-True answers by other non-True answers changes nothing assembled |
| DeriveRelations.FoldExactly | src/extensible_mcp/fetchplan.py:455-475 | A completed fold holds the in-order projections of exactly the candidates whose arguments are defined and answer is True |
| DeriveRelations.EntryFramed | src/extensible_mcp/fetchplan.py:1054-1143 | An entry reads only the fields it references; on a smaller document it does the same or is omitted |
| DeriveRelations.CredentialRemoved | src/extensible_mcp/fetchplan.py:1012-1052 | Without an optional call credential a completed assembly still completes, as the old document without the fields that transitively refer to it |
| DeriveRelations.Stable | src/extensible_mcp/fetchplan.py:1014-1052 | Every present entry resolved again against the final document gives the value it has there |
| DeriveRelations.Reordered | src/extensible_mcp/fetchplan.py:604-622 | A permutation that keeps referencing pairs in order succeeds when the plan does, with the same document |
| Cedar.EvaluateMeans | src/extensible_mcp/cedar_policy.py:318-354 | One pass: a fault exactly when a policy errs, allow exactly when a permit and no forbid matches, on a denial the ids of the forbids that matched |
| Cedar.AllowExactly | src/extensible_mcp/cedar_policy.py:264-316 | When permit-decides answers allow and when deny, exactly; an `@id` forbid that fires without its guard is a fault |
| Cedar.EmptyDenies | src/extensible_mcp/cedar_policy.py:318-354 | An empty policy set never allows |
| Cedar.FewerForbids | src/extensible_mcp/cedar_policy.py:286-316 | Deleting forbids never turns an allow into a deny, and turns a deny into an allow exactly when only those fired |
| Cedar.ReportedExactly | src/extensible_mcp/cedar_policy.py:286-316 | Which ids each shape reports on a denial, over one pass or over the decision and the probe pass, and when it faults instead |
| Cedar.JudgedExactly | src/extensible_mcp/cedar_policy.py:264-285 | An input is judged exactly when it is an object without the probe's key and no key at any depth starts with two underscores |
| Cel.EvaluateAll | src/extensible_mcp/cel_policy.py:365-405 | Any fault aborts; otherwise a boolean per check, unreadable evidence being a failed check |
| Cel.FoldTiersMeans | src/extensible_mcp/cel_policy.py:334-337 | The short-circuit fold allows, denies and raises exactly by which tiers are satisfied and which name an undefined check |
| Cel.Query | src/extensible_mcp/cel_policy.py:328-361 | Both entrypoints off one evaluation, with the guarded ids dropped on a denial |
| Cel.ReportedExactly | src/extensible_mcp/cel_policy.py:340-361 | A denial reports exactly the checks that did not pass and whose guard fields the input holds |
| CedarLoader.CountAnnotations | src/extensible_mcp/cedar_policy.py:358-400 | The counting loop: refused exactly when an annotation does not fit the shape, else the counts |
| CedarLoader.CheckComplete | src/extensible_mcp/cedar_policy.py:358-454 | The completeness check accepts exactly complete sets |
| CedarLoader.InferStructure | src/extensible_mcp/cedar_policy.py:493-559 | The inferring loops give the inferred structure or refuse |
| CedarLoader.PlacedAll | src/extensible_mcp/cedar_policy.py:493-559 | With every check placed, the tiers together hold exactly the checks found, each as often as found |
| CedarStructure.TiersInOrder | src/extensible_mcp/cedar_policy.py:505-528 | The inferred tiers are the permits' tiers in the order of the permits |
| CedarStructure.ChecksInOrder | src/extensible_mcp/cedar_policy.py:529-548 | Under each tier stand the ids of exactly the checks that belong to it, in file order |
| CedarStructure.PlacedExactly | src/extensible_mcp/cedar_policy.py:529-548 | An id is listed under a tier exactly when a check with it carries the tier, or carries none while there is no other |
| CedarStructure.InferredExactly | src/extensible_mcp/cedar_policy.py:493-559 | When inference succeeds and when it refuses, by the policies of the file |
| CedarStructure.CompleteExactly | src/extensible_mcp/cedar_policy.py:358-454 | Accepted exactly when permits and forbids carry what the shape allows and the annotations match the structure one to one |
| CedarStructure.ReadExactly | src/extensible_mcp/cedar_policy.py:457-490 | When a declared structure is read, and as what; without a shape it is forbid-only |
| CedarLoader.LoadersAgree | src/extensible_mcp/cedar_policy.py:457-559 | A set loaded by inference, with an assembly forbid per tier, loads the same from its structure written out |
| CedarStructure.AnnotationsBijective | src/extensible_mcp/cedar_policy.py:358-454 | In an accepted permit-decides set the `@id` forbids are in bijection with the ids and the permits with the tiers |
| PolicyAgreement.ForbidOnlyDecides | src/extensible_mcp/cedar_policy.py:264-316 | Forbid-only allows exactly when some tier holds, and on a denial reports exactly the failed checks |
| PolicyAgreement.PermitDecidesDecides | src/extensible_mcp/cedar_policy.py:286-316 | Guarded permit-decides does the same, through its probe pass |
| PolicyAgreement.CelDecides | src/extensible_mcp/cel_policy.py:328-361 | CEL allows exactly when some tier holds; it reports exactly the failed checks if and only if absent guarded fields coincide with undefined checks |
| PolicyAgreement.ThreeEvaluators | src/extensible_mcp/cel_policy.py:328-361 | The three engines give the same verdict, and the same failed ids where that coincidence holds |
| PolicyAgreement.GeneratedSetsAgree | src/extensible_mcp/cedar_policy.py:264-316 | The two Cedar sets written out from tiers and checks meet the conditions above |
| Numerals.RebaseInverse | examples/identity/src/household_identity/common/did.py:27-52 | Changing base and back changes nothing, leading zeros included |
| Numerals.ByteWidth | examples/identity/src/household_identity/common/did.py:49-49 | The width computed from the bit length is the number of base-256 digits |
| Base58.DecodeInvertsEncode | examples/identity/src/household_identity/common/did.py:27-52 | Every byte string survives encoding and decoding |
| Base58.EncodeInvertsDecode | examples/identity/src/household_identity/common/did.py:42-52 | Exactly the base58 strings decode, and each is the encoding of its decoding |
| Base58.EncodeBytes | examples/identity/src/household_identity/common/did.py:27-39 | The encoder's two loops and reversal give that encoding |
| Base58.DecodeText | examples/identity/src/household_identity/common/did.py:42-52 | The identity library's decoder loop is that decoding |
| Base58.DecodeTextForPolicy | src/extensible_mcp/wasm_policy.py:201-208 | The policy host's decoder loop is the same decoding |
| DidKey.AcceptedExactly | examples/identity/src/household_identity/common/did.py:55-78 | A did:key is accepted for a key exactly when it is that 32-byte key's own name |
| DidKey.DecodersAgree | src/extensible_mcp/wasm_policy.py:211-230 | The policy host reads the same key from every name and refuses what the identity library refuses |
| DidKey.NamePrefix | examples/identity/src/household_identity/common/did.py:55-59 | The name of every 32-byte key starts with did:key:z6Mk and has 56 characters |
| Utf8.Utf8Exactly | examples/agentic-commerce-demo/src/extensible_mcp_vc/webauthn.py:125-127 | Bytes are well-formed text exactly when they encode scalar values one after another |
| CborHead.HeadRoundTrip | examples/agentic-commerce-demo/src/extensible_mcp_vc/webauthn.py:100-115 | Reading an item's head, in any of its widths, gives back its type and argument and its exact end |
| Cbor.DecodeLocal | examples/agentic-commerce-demo/src/extensible_mcp_vc/webauthn.py:98-143 | A decode that ends inside the buffer depends only on the bytes it consumed, at any offset |
| Cbor.Decode | examples/agentic-commerce-demo/src/extensible_mcp_vc/webauthn.py:98-143 | A successful decode starts inside the buffer and strictly advances |
| Cbor.RoundTrip | examples/agentic-commerce-demo/src/extensible_mcp_vc/webauthn.py:98-143 | Decoding an encoding, wherever it stands and whatever follows, gives the item and its exact end |
| Cbor.PrefixFree | examples/agentic-commerce-demo/src/extensible_mcp_vc/webauthn.py:98-143 | The first item of a buffer is determined |
| CborExtent.EndsInsideExactly | examples/agentic-commerce-demo/src/extensible_mcp_vc/webauthn.py:98-143 | A decode is independent of what follows its buffer if and only if it ends inside it |
| Cbor.CutStringReadsShort | examples/agentic-commerce-demo/src/extensible_mcp_vc/webauthn.py:122-124 | A byte string cut off by the end of the buffer decodes to the part that is left |
| Cbor.LastEntryWins | examples/agentic-commerce-demo/src/extensible_mcp_vc/webauthn.py:135-142 | A map that spells a key twice reads as a map of distinct keys in which the later value stands |
| Cbor.MapKeys | examples/agentic-commerce-demo/src/extensible_mcp_vc/webauthn.py:135-142 | Every map that is read has distinct keys, each an integer, bytes or text |
| Cbor.HeadRefused | examples/agentic-commerce-demo/src/extensible_mcp_vc/webauthn.py:98-143 | Major types above five and reserved lengths are refused; an item that starts at the buffer's end is out of bytes |
| Cbor.CutArgumentReadsShort | examples/agentic-commerce-demo/src/extensible_mcp_vc/webauthn.py:107-115 | A wide argument cut off by the end of the buffer is read from the bytes that are left |
| Cbor.DecodeItem | examples/agentic-commerce-demo/src/extensible_mcp_vc/webauthn.py:98-143 | The recursive decoder with its array and map loops computes that decoding, faults included |
| WebAuthn.KeyNamed | examples/agentic-commerce-demo/src/extensible_mcp_vc/webauthn.py:146-164 | A COSE map names a key exactly when it holds the three ES256 parameters and two coordinates the curve accepts, in any order among other entries |
| WebAuthn.CoseKeyOf | examples/agentic-commerce-demo/src/extensible_mcp_vc/webauthn.py:146-164 | An encoded COSE map is read as that map whatever extensions follow |
| WebAuthn.ParseLayout | examples/agentic-commerce-demo/src/extensible_mcp_vc/webauthn.py:167-185 | Parsing a laid-out registration gives its credential id and key, or the map's own refusal |
| WebAuthn.AcceptedExactly | examples/agentic-commerce-demo/src/extensible_mcp_vc/webauthn.py:167-185 | Acceptance exactly: flag set, id wholly inside the data, an acceptable key after it |
| WebAuthn.RegistrationRoundTrip | examples/agentic-commerce-demo/src/extensible_mcp_vc/webauthn.py:188-202 | The same from any attestation object that carries the layout |
| WebAuthn.RefusedExactly | examples/agentic-commerce-demo/src/extensible_mcp_vc/webauthn.py:146-202 | What is refused before there is a key: data that does not decode, no map, no bytes under authData |
| WebAuthn.RefusedEarly | examples/agentic-commerce-demo/src/extensible_mcp_vc/webauthn.py:176-179 | Too short and unflagged data are refused before anything is decoded, and nothing else is refused so |
| DependencyOrder.Sorter.Visit | src/extensible_mcp/augment.py:130-138 | A visit only appends, keeps the order sound, restores the stack, and adds only what the field reaches |
| DependencyOrder.Sorter.Order | src/extensible_mcp/augment.py:120-142 | The order is sound, covers every field and moves none ahead without need |
| DependencyOrder.DependencyFirst | src/extensible_mcp/augment.py:120-142 | For any graph, a dependency that cannot reach back stands first |
| DependencyOrder.NotMovedWithoutNeed | src/extensible_mcp/augment.py:120-142 | What stands before a field is reached from a field listed no later, so without dependencies the given order is kept |
| DependencyOrder.Permutes | src/extensible_mcp/augment.py:120-142 | The order is a permutation of the fields |
| Discovery.KeptExactly | src/extensible_mcp/filters.py:167-173 | A session is remembered exactly when fewer sessions than the bound have registered since it last did |
| Discovery.KeptAfter | src/extensible_mcp/filters.py:167-173 | The kept sessions after a registration, from those before it |
| Discovery.PassesAfter | src/extensible_mcp/filters.py:167-191 | What a registration changes about which tools pass for which session |
| Discovery.DiscoveredToolsFilter.Register | src/extensible_mcp/filters.py:167-173 | The dictionary stays the kept sessions in recency order, each with the tools registered since its last eviction |
| Discovery.DiscoveredToolsFilter.Check | src/extensible_mcp/filters.py:179-191 | A tool passes exactly when the same session registered it and has been kept ever since |
| Merchant.CheckInvoice | examples/agentic-commerce-demo/src/extensible_mcp_vc/merchant.py:65-109 | The loop reports exactly the violations, in order |
| Merchant.CheckedExactly | examples/agentic-commerce-demo/src/extensible_mcp_vc/merchant.py:65-109 | No violation if and only if every line is in bounds, the total is the sum of price times quantity between the floors and the list prices and within the desk limit, and the expiry is a whole number at most the quote time and a minute ahead |
| Merchant.LineExactly | examples/agentic-commerce-demo/src/extensible_mcp_vc/merchant.py:74-94 | A line passes exactly when its item is on the menu, its quantity is allowed, and its price is at least the ratio of the list price and at most that price |
| Merchant.AboveDiscount | examples/agentic-commerce-demo/src/extensible_mcp_vc/merchant.py:72-94 | The total of lines in bounds is at least the discount ratio of what they list for |
| Merchant.BetweenFloorsAndList | examples/agentic-commerce-demo/src/extensible_mcp_vc/merchant.py:72-94 | The total of lines in bounds lies between the sum of their floors and of their list prices |
| Merchant.SignedExactly | examples/agentic-commerce-demo/src/extensible_mcp_vc/merchant.py:205-247 | Whatever is proposed, the desk signs exactly when the filled-in lines are in bounds and within the limit and the quote has not lapsed |
| Merchant.SignedTerms | examples/agentic-commerce-demo/src/extensible_mcp_vc/merchant.py:205-247 | What is signed, from what was proposed: item, quantity cut to a whole number or else one, price or else the list price, and a total that is their sum, at least the discount ratio of the list total |
| MerchantDesk.Desk.Quote | examples/agentic-commerce-demo/src/extensible_mcp_vc/merchant.py:205-247 | Either the draft is recorded and signed, or nothing changes |
| MerchantDesk.Desk.Fulfill | examples/agentic-commerce-demo/src/extensible_mcp_vc/merchant.py:249-289 | Ships and commits exactly for a shippable receipt, once; each refusal has its own condition |
| Settlement.PayOnce | examples/agentic-commerce-demo/src/extensible_mcp_vc/settlement.py:146-175 | No attempt on the rail makes a second charge under a nonce |
| Settlement.ReceiptPinsTerms | examples/agentic-commerce-demo/src/extensible_mcp_vc/settlement.py:57-128 | A receipt settles exactly the invoices with the same nonce, merchant, total and currency, whatever their items |
| Settlement.SettlesExactly | examples/agentic-commerce-demo/src/extensible_mcp_vc/settlement.py:100-128 | A receipt settles an order exactly when it reports success and has the order's nonce, merchant, amount and currency |
| Settlement.VerifiedExactly | examples/agentic-commerce-demo/src/extensible_mcp_vc/invoice.py:66-94 | A document is verified exactly when the key trusted for its merchant signed it and, if an invoice, it has not expired |
| Settlement.AmountExactly | examples/agentic-commerce-demo/src/extensible_mcp_vc/settlement.py:162-166 | The amount charged is the total cut toward zero |
| Settlement.RetryAnswered | examples/agentic-commerce-demo/src/extensible_mcp_vc/settlement.py:146-175 | A retry moves no money: with the same terms it is answered with the first reference, with others it is not paid |
| ApprovalService.SelectedExactly | examples/agentic-commerce-demo/examples/approval_service.py:412-439 | The record settled is the first for the nonce, cross-checked and approved |
| ApprovalService.Service.RequestInvoice | examples/agentic-commerce-demo/examples/approval_service.py:373-391 | A verified invoice becomes one new pending record, anything else changes nothing |
| ApprovalService.RequestedExactly | examples/agentic-commerce-demo/examples/approval_service.py:373-391 | A request is taken exactly when it is an unexpired invoice signed by its trusted merchant with a number for a total; above a thousand the parent must approve as well |
| ApprovalService.Service.Approve | examples/agentic-commerce-demo/examples/approval_service.py:465-512 | Only an enrolled key of a required role, over this record's own terms, adds an approval |
| ApprovalService.Service.Select | examples/agentic-commerce-demo/examples/approval_service.py:412-439 | The search loop finds the record `/settle` may act on |
| ApprovalService.Service.SettleIfReady | examples/agentic-commerce-demo/examples/approval_service.py:278-298 | A record with a receipt, or not approved, is never touched; otherwise the receipt or the decline is recorded |
| ApprovalService.Service.RecordCommitment | examples/agentic-commerce-demo/examples/approval_service.py:528-551 | A verified document with the nonce is recorded on the first record for it |
| ApprovalService.CommittedExactly | examples/agentic-commerce-demo/examples/approval_service.py:528-551 | A document is taken exactly when it is verified and some record has its nonce; the first such record keeps it, and no other changes |
| Purchase.StepKeeps | examples/agentic-commerce-demo/examples/approval_service.py:278-298 | Every event, settlement phases interleaved, keeps the invariant and loses nothing established |
| Purchase.FulfilledMeans | examples/agentic-commerce-demo/src/extensible_mcp_vc/merchant.py:249-289 | In every run, whoever is trusted, a fulfilled nonce was issued by the desk on allowed terms, charged once for exactly its total and shipped once, and every role its total requires approved one invoice with its nonce, merchant, total and currency; with registration closed, that very invoice |
| Purchase.ReceiptMeans | examples/agentic-commerce-demo/src/extensible_mcp_vc/settlement.py:81-97 | Every receipt ever signed is for fully approved terms charged exactly once |
| Purchase.CommitmentMeans | examples/agentic-commerce-demo/src/extensible_mcp_vc/merchant.py:275-289 | Every commitment ever signed is for a shipped order, with its own items and destination and the charge that paid for it |
| PurchaseProgress.EverySignedOrderCanShip | examples/agentic-commerce-demo/examples/approval_service.py:373-512 | Once the desk's key can be trusted and the people its total takes are there, every order the policy would sign has a run that quotes it, approves it, charges it and ships it |
| PurchaseProgress.ChildAloneExactly | examples/agentic-commerce-demo/examples/approval_service.py:373-512 | With nobody but children enrolled, some run ships a signable order if and only if its total is at most a thousand |
| Purchase.ReapprovalOnlyResets | examples/agentic-commerce-demo/examples/approval_service.py:495-511 | A repeated approval resets the status, and makes a record chargeable only if it has no receipt |
| PurchaseProgress.ForeignKeyShipsUnapproved | examples/agentic-commerce-demo/examples/approval_service.py:347-353 | A run in which a foreign key registered under the desk's id makes the desk ship an order nobody approved |
| PurchaseProgress.ApprovedTermsExactly | examples/agentic-commerce-demo/examples/approval_service.py:347-391 | Every shipped order is approved on its exact terms in every run if and only if no key but the desk's and the settlement's can be registered under the desk's id |
| PurchaseProgress.FulfilledMarkIsNotPayment | examples/agentic-commerce-demo/examples/approval_service.py:528-551 | A run in which a record is marked fulfilled with no approval, no charge and nothing shipped |
| Purchase.ReceiptMeansPaid | examples/agentic-commerce-demo/examples/approval_service.py:278-298 | In any reachable state a record carries a receipt exactly when it is the first for its nonce and the service signed one for that nonce; its terms are then fully approved and charged once |
| Purchase.MarkChangesNothingElse | examples/agentic-commerce-demo/examples/approval_service.py:528-551 | Marking a record fulfilled changes neither its receipt nor its approvals |

## Left out

- Cryptography, JWS, hashing, base64 and JSON text: ideal or uninterpreted; a WebAuthn assertion is a signature over the challenge, its origin, relying-party and flag checks are not modelled.
- The elliptic-curve check of a COSE point: which coordinates it accepts is a parameter.
- Shapes of derive plans that the check refuses and the evaluator stumbles on in several ways are one fault, `Malformed`.
- Messages, logging, events, timestamps for display, sentences and guidance text.
- cedarpy, celpy and the OPA/WASM runtime: only decision, reasons, diagnostics and three-valued checks; entrypoint names are not modelled.
- Entries of a plan that are not objects or whose field is not a string, and `$input` paths of fetch parameters that are not strings: the plan type excludes them.
- Wallet lookups that raise: a wallet answers or does not know.
- Ids and tiers of a Cedar declaration that are not strings: labels are abstract; `@sentence` handling is not modelled.
- Clocks are monotone in the single-use protocol, and times are reals; the environment that injects a store other than the in-memory one is not modelled.
- Recursion limits of the CBOR decoder; NaN and infinity, integers written as strings, and names that cannot be dictionary keys in a proposed order; rounding of the floating-point discount floor.
- A CBOR text item is kept as its UTF-8 bytes, with well-formedness as section 3 of RFC 3629 gives it.
- Negotiators, the merchant's display name and delivery estimate, enrollment credentials, sign-in, pages and audit output.
- CallFilterPipeline.apply: a plain left fold over filters, nothing a reader would not see in it.
- `client_manager.py`, `credentials.py`, `server.py`, `admin.py`, `meta_tools.py`, wallet and console servers, `vector_store.py`, `config.py`, `guidance.py`, `selection.py`, `routing.py`, `issuer.py`, `declared_bundles.py`: transports, lookups and text.
