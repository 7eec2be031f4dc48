# The transfer lifecycle of the Wormhole TypeScript SDK, in Dafny

The Wormhole SDK moves tokens between chains: it submits a transfer on a source chain, waits for an
attestation, redeems it on a destination chain, and reports receipts on the way. This project models the
parts of it that are protocols rather than plumbing, and proves what they keep.

- **Receipts and trackers.** `Receipts` holds the transfer states and receipts, and what a consumer sees over any
  number of calls of a tracker, each fed with the receipt held before, with early exits and exceptions at any
  await. `TokenTracker`, `CircleTracker` and `VaaTracker` (Portico and tBTC) are the generators, each as a method
  that follows the source statement by statement and as the function of its answers that the lemmas are about.
- **Driving and objects.** `CompleteTransfer` drives the Circle tracker and the manual `complete` in rounds against a
  destination chain that others redeem on too. `TokenTransfers` and `CircleTransfers` are the stateful transfer
  objects, over every sequence of calls.
- **Asynchronous sending.** `Retry` is the interval retry as a system of ticks and out-of-order completions,
  `Batching` the batching of a transaction stream, `SolanaSender` the resubmission loop.
- **Money.** `Amounts` models decimal amounts on their digit strings; `TokenQuotes`, `CctpQuotes` and
  `PorticoQuotes` the quotes built on them.
- **Transformations.** `ConfigMerge` and `ConfigOverride` are the two deep merges, and the second compares them;
  `RegistryUpdate` is the token registry update that uses the first, `ExamplesSplice` and `ReadmeUpdate` are the script
  that splices examples into the README, and `AptosAddress` is address parsing and printing.

Answers of chains, APIs, wallets, the clock and the file system are parameters: a lemma that quantifies over
them holds whatever they answer. An exception thrown to an awaiting caller is the value `Throws`, or a `threw` flag.
`dafny verify dfyconfig.toml` checks everything.

## Where the code departs from what it says

These were found in the code, are kept in the model, and are stated by the lemmas named.

- A `TokenTransfer.track` call that starts before the attestation always throws, even when the attestation was found;
  progress needs a second call (`TokenTracker.SourceCallThrows`, `TokenTracker.TwoCallsFinalize`).
- The Circle tracker never finalizes a transfer relayed by Wormhole, and every call on one that is attested or
  redeemed throws (`CircleTracker.RelayedNeverFinalizes`, `CircleTracker.RelayedCallThrows`).
- Neither transfer object's state is monotone; each falls under one exact condition
  (`TokenTransfers.StateFallsIff`, `CircleTransfers.StateFallsIff`).
- A transfer object whose source context was pointed at the destination chain takes its source transactions for
  destination ones, and its receipt runs ahead of its state (`TokenTransfers.AgreesIff`,
  `TokenTransfers.OverriddenContextDisagrees`, `CircleTransfers.ReceiptsAgreeIff`).
- `retry` starts its task more often than `maxRetries` says exactly when an attempt is still in flight at the tick that
  should give up; then there is no bound (`Retry.ExceedsMaxRetriesIff`, `Retry.OverlapExceedsMaxRetries`).
- An attestation API that answers with an empty signature, which is not null, makes a Circle transfer attested that
  cannot be completed and whose receipt cannot be tracked (`CircleTransfers.ReceiptsAgreeIff`,
  `CircleTransfers.EmptySignatureIsAttested`).
- A stream of transactions that breaks off takes the buffered ones with it (`Batching.BreakingLosesTheBuffer`).
- The Solana signer waits for every confirmation with the block it fetched last, which is not the one an earlier
  transaction was sent with if a later one was sent again (`SolanaSender.ConfirmedWithItsBlockIff`).
- With no resubmits allowed the Solana signer sends nothing and returns without an error
  (`SolanaSender.NoResubmitsSendNothing`).
- An executor quote with accepted options trips the drop-off limit when that limit is negative, and only then
  (`TokenQuotes.AcceptedDropOffFits`).
- Two overrides act as their merge only if the first holds nothing falsy where the second goes into an object
  (`ConfigMerge.ActionLaw`, `ConfigOverride.OverrideActionLaw`), and `override` throws or writes into arrays where
  `mergeDeep` does neither (`ConfigOverride.OverrideIsMergeIff`, `ConfigOverride.ArraysTellThemApart`).
- One chain that cannot tell the decimals of a wrapped asset keeps all new foreign assets of that token out of the
  registry (`RegistryUpdate.OneClashHoldsUpTheToken`).
- The README script does not settle when an example file's own name holds the tag mark
  (`ReadmeUpdate.SettlesIff`).
- An empty text is parsed as the zero Aptos address (`AptosAddress.NothingIsZero`).
- A zero Aptos address under a module can be made but not parsed from what it prints
  (`AptosAddress.RoundTripIff`, `AptosAddress.ZeroTypeIsConstructible`).

## Model

| member | source | states |
|---|---|---|
| `Receipts.SessionLinked` | connect/src/protocols/tokenBridge/tokenTransfer.ts:390-394 | what relates neighbouring receipts in every single tracker call relates them over every session of repeated, abandoned and throwing calls |
| `Receipts.LinkedPreorder` | connect/src/protocols/tokenBridge/tokenTransfer.ts:390-394 | what relates neighbouring receipts relates any two of a session, if it is reflexive and transitive |
| `Receipts.ChangesCostRank` | connect/src/types.ts:27-38 | along receipts that only climb, every change of state costs at least one rank |
| `Receipts.RanksNeverFall` | connect/src/types.ts:27-38 | no later receipt of a climbing history ranks below an earlier one |
| `Receipts.FinalizedByACall` | connect/src/protocols/tokenBridge/tokenTransfer.ts:390-394 | a finalized receipt of a session that began with none was shown, no later, by one call of it: the call and the place in what it showed are named, and it started from a receipt that was not finalized |
| `TokenTracker.Track` | connect/src/protocols/tokenBridge/tokenTransfer.ts:394-524 | the generator, drained, yields the receipts and the exception of the four-phase specification |
| `TokenTracker.CallJustified` | connect/src/protocols/tokenBridge/tokenTransfer.ts:408-523 | every receipt yielded follows from the one before by an edge of the state machine that an answer of this call justifies |
| `TokenTracker.CallFindsMessageIff` | connect/src/protocols/tokenBridge/tokenTransfer.ts:408-418 | a submitted transfer gets the message id of its source transaction exactly when there is one to be had, and the call goes on from there; otherwise it throws |
| `TokenTracker.CallAttestsIff` | connect/src/protocols/tokenBridge/tokenTransfer.ts:423-446 | before the attestation, a call shows an attested receipt with the signed message exactly when that is found, one in review exactly when no message is found and it is enqueued, nothing else, and throws |
| `TokenTracker.CallRedeemsIff` | connect/src/protocols/tokenBridge/tokenTransfer.ts:448-470 | an attested or relay-failed transfer is shown redeemed, with its transaction, exactly when the status lookup knows that transaction |
| `TokenTracker.CallFinalizesIff` | connect/src/protocols/tokenBridge/tokenTransfer.ts:472-496 | an attested, relay-failed or redeemed transfer is shown finalized exactly when the destination chain says so and the status lookup, if made, answers; then these receipts are shown |
| `TokenTracker.CallFailsIff` | connect/src/protocols/tokenBridge/tokenTransfer.ts:498-521 | an attested executor transfer is shown failed with a relay error exactly when the lookup knows no transaction, the chain denies completion, and the relay has failed, was underpaid, is unsupported or was aborted |
| `TokenTracker.CallThrowsIff` | connect/src/protocols/tokenBridge/tokenTransfer.ts:448-521 | a call on such a transfer throws exactly when the lookup or the chain throws, or there is no status of a relay it asks about; what it showed before is named |
| `TokenTracker.CallLeavesPending` | connect/src/protocols/tokenBridge/tokenTransfer.ts:448-524 | and every other call ends with what the lookup made of the receipt |
| `TokenTracker.CallLeavesAlone` | connect/src/protocols/tokenBridge/tokenTransfer.ts:448-524 | an attestation of token metadata is looked up and then refused with an exception; a receipt in any state that is not tracked is shown as it is |
| `TokenTracker.SessionsProgress` | connect/src/protocols/tokenBridge/tokenTransfer.ts:394-524 | over every session: ranks never fall, with Failed between Attested and DestinationInitiated, and the state changes at most six times |
| `TokenTracker.SessionsKeepIdentity` | connect/src/protocols/tokenBridge/tokenTransfer.ts:408-523 | between any two receipts of a session: chains and origin transactions are the same, and so is a message id that the earlier one has past the initiated state, even if the session itself found it |
| `TokenTracker.SessionsStayWellFormed` | connect/src/protocols/tokenBridge/tokenTransfer.ts:408-523 | from a well-formed receipt, every attested, failed, redeemed or finalized receipt holds a full attestation, that attestation is final, and finalized receipts are absorbing |
| `TokenTracker.FinalizedOnlyIfRedeemed` | connect/src/protocols/tokenBridge/tokenTransfer.ts:472-496 | a finalized receipt of a session was first shown, no later, by a call that started from a receipt that was not finalized, and the destination chain told that call that the transfer is complete |
| `TokenTracker.SourceCallThrows` | connect/src/protocols/tokenBridge/tokenTransfer.ts:408-446 | a call started before the attestation throws whatever is answered and shows no more than an attested receipt |
| `TokenTracker.OneCallEndsAttested` | connect/src/protocols/tokenBridge/tokenTransfer.ts:408-446 | so no single call, wherever the consumer leaves it, takes such a transfer past its attestation |
| `TokenTracker.TwoCallsFinalize` | connect/src/protocols/tokenBridge/tokenTransfer.ts:394-524 | but two calls with good answers take an initiated transfer to its end |
| `CircleTracker.Track` | connect/src/protocols/cctp/cctpTransfer.ts:442-561 | the generator, drained, yields the receipts and the exception of the four-phase specification |
| `CircleTracker.CallJustified` | connect/src/protocols/cctp/cctpTransfer.ts:458-560 | every receipt yielded follows from the one before by an edge that an answer of this call justifies |
| `CircleTracker.CallFindsMessageIff` | connect/src/protocols/cctp/cctpTransfer.ts:458-470 | a submitted transfer gets the message of its last source transaction exactly when that can be read, and the call goes on from there; otherwise it throws |
| `CircleTracker.CallAttestsIff` | connect/src/protocols/cctp/cctpTransfer.ts:495-517 | a transfer with the id of a Circle message is attested, with the logged message and the signature fetched, exactly when there is a signature that is not empty |
| `CircleTracker.RelayAttestsIff` | connect/src/protocols/cctp/cctpTransfer.ts:475-494 | a transfer with the id of a relay's message is attested exactly when that message was missing and is found |
| `CircleTracker.RelayRedeemsIff` | connect/src/protocols/cctp/cctpTransfer.ts:520-541 | with that message, a relayed transfer is shown redeemed, with its transaction, exactly when the status lookup knows that transaction |
| `CircleTracker.CallFinalizesIff` | connect/src/protocols/cctp/cctpTransfer.ts:544-560 | an attested or redeemed transfer with a Circle message is finalized, left or thrown over exactly as the destination chain answers |
| `CircleTracker.OneCallFinalizes` | connect/src/protocols/cctp/cctpTransfer.ts:458-560 | from a submitted transfer, with good answers, one call shows the message found, the attested and the finalized receipt, in this order |
| `CircleTracker.CallLeavesAlone` | connect/src/protocols/cctp/cctpTransfer.ts:458-560 | nothing is shown of a receipt in a state that is not tracked; one without the id or attestation it needs throws |
| `CircleTracker.SessionsProgress` | connect/src/protocols/cctp/cctpTransfer.ts:442-561 | between any two receipts of a session: ranks never fall, identity and well-formedness are kept, a full attestation is final, finalized receipts are absorbing |
| `CircleTracker.FinalizedOnlyIfRedeemed` | connect/src/protocols/cctp/cctpTransfer.ts:535-560 | a finalized receipt of a session was first shown, no later, by a call that started from a receipt that was not finalized, and the destination chain told that call that the receipt's own message is completed |
| `CircleTracker.RelayedNeverFinalizes` | connect/src/protocols/cctp/cctpTransfer.ts:438-561 | no session finalizes a transfer relayed by Wormhole |
| `CircleTracker.RelayedCallThrows` | connect/src/protocols/cctp/cctpTransfer.ts:650-658 | every call that meets such a transfer attested or redeemed throws |
| `VaaTracker.Track` | connect/src/routes/portico/automatic.ts:304-348 | the Portico and tBTC generators, drained, yield the receipts and the exception of the specification |
| `VaaTracker.CallAttestsIff` | connect/src/routes/portico/automatic.ts:305-326 | a transfer on its source side is attested under the id that its signed message names exactly when that message is found; otherwise the call throws |
| `VaaTracker.AttestedCallEnds` | connect/src/routes/portico/automatic.ts:328-347 | an attested transfer ends as its destination chain answers; any other is shown as it is |
| `VaaTracker.CallFinalizesIff` | connect/src/routes/tbtc/tbtc.ts:296-336 | one drained call finalizes exactly the transfers that can be attested and are reported completed |
| `VaaTracker.SessionsProgress` | connect/src/routes/tbtc/tbtc.ts:296-336 | between any two receipts of a session: ranks never fall, identity and well-formedness are kept, a full attestation is final, finalized receipts are absorbing |
| `VaaTracker.FinalizedOnlyIfCompleted` | connect/src/routes/portico/automatic.ts:329-343 | a finalized receipt of a session was first shown, no later, by a call that started from a receipt that was not finalized and was told that the transfer is completed |
| `CompleteTransfer.Destination.Complete` | connect/src/routes/cctp/manual.ts:171-194 | `complete` refuses, passes by or submits; a successful submission redeems the receipt's message on the chain |
| `CompleteTransfer.Destination.DoRound` | connect/src/routes/common.ts:21-57 | one round does to receipt, chain, submissions and leftover what the step specification says |
| `CompleteTransfer.Destination.CheckAndComplete` | connect/src/routes/common.ts:15-61 | the recursive driver, on every run that ends at all, ends with the first round that does not leave it running, in the state after that many steps |
| `CompleteTransfer.RedeemedAtMostOnce` | connect/src/routes/common.ts:15-61 | however often the driver is called for one transfer, from whatever receipts, redeem is submitted successfully at most once, and then its message is redeemed |
| `CompleteTransfer.RedeemedOnce` | connect/src/routes/common.ts:15-61 | and that once is reached: one call of the driver redeems, a second returns the finalized receipt without redeeming again |
| `CompleteTransfer.CompletedOnlyIfRedeemed` | connect/src/routes/common.ts:28-41 | after any number of rounds a newly finalized receipt has been returned, and its message is redeemed on the destination chain |
| `CompleteTransfer.StepSubmitsIff` | connect/src/routes/common.ts:34-48 | a round submits an attested message exactly when the route and caller can, the chain denies it and the sending succeeds |
| `CompleteTransfer.AttestedRoundEnds` | connect/src/routes/common.ts:28-60 | how a round ends for an attested transfer, signed or not: rejected, returned or by the clock, in every case that the chain, the route and the sending leave |
| `CompleteTransfer.RedeemedRoundEnds` | connect/src/routes/common.ts:43-60 | and for a redeemed one: nothing is submitted, and it is rejected exactly when the chain cannot be asked, or the route finalizes with the signer and that fails |
| `CompleteTransfer.RedeemedReturnsNext` | connect/src/routes/common.ts:24-41 | once redeemed, the next round returns the finalized receipt without submitting, unless the chain lookup throws |
| `CompleteTransfer.EndsInTime` | connect/src/routes/common.ts:50-61 | if each round takes at least d > 0 ms, every run has ended within its timeout divided by d, rounded up |
| `CompleteTransfer.EndsByTheClock` | connect/src/routes/common.ts:50-60 | on every run: a driver that goes again had time left, and one that returns a receipt that is not finalized has used up its timeout |
| `CompleteTransfer.HandsBackLastShown` | connect/src/routes/common.ts:28-60 | the receipt handed back is the last one that the tracker showed in the last round, whatever completing and finalizing gave back |
| `CompleteTransfer.SignedCompletes` | connect/src/routes/common.ts:15-61 | from a signed receipt, with a chain that answers, a redeem transaction that gets through and time for a second round, the finalized receipt is returned; the message is submitted once, exactly when no one else had redeemed it |
| `CompleteTransfer.SubmittedCompletes` | connect/src/routes/common.ts:15-61 | so too from a submitted transfer, whichever round its signature comes in, if there is time for one more |
| `CompleteTransfer.SubmittedEndsCompleted` | connect/src/routes/common.ts:15-61 | and that is how every call of the driver on such a transfer ends |
| `TokenTransfers.TokenTransfer.constructor` | connect/src/protocols/tokenBridge/tokenTransfer.ts:143-154 | a new transfer is created, with no transactions and no attestations |
| `TokenTransfers.TokenTransfer.InitiateTransfer` | connect/src/protocols/tokenBridge/tokenTransfer.ts:240-247 | the object and the exception after the call are those of the specification |
| `TokenTransfers.TokenTransfer.FetchAttestation` | connect/src/protocols/tokenBridge/tokenTransfer.ts:251-288 | the fetching loop leaves the object, also when it throws part way, as the recursive specification says |
| `TokenTransfers.TokenTransfer.CompleteTransfer` | connect/src/protocols/tokenBridge/tokenTransfer.ts:292-311 | the object and the exception after the call are those of the specification |
| `TokenTransfers.TokenTransfer.GetReceipt` | connect/src/protocols/tokenBridge/tokenTransfer.ts:526-578 | the receipt built field by field is the one the last telling field decides |
| `TokenTransfers.FromIsInv` | connect/src/protocols/tokenBridge/tokenTransfer.ts:136-236 | every object `from` makes satisfies the invariant; from a message or a transaction it is attested |
| `TokenTransfers.FromSucceedsIff` | connect/src/protocols/tokenBridge/tokenTransfer.ts:136-236 | `from` makes an object exactly when the details are for two chains and an amount, or the message is signed and its completion answered; it is then new, attested or finalized |
| `TokenTransfers.ContextsOf` | connect/src/protocols/tokenBridge/tokenTransfer.ts:143-166 | an object works through the chain contexts it was given, or through those of its own chains |
| `TokenTransfers.InitiateSucceedsIff` | connect/src/protocols/tokenBridge/tokenTransfer.ts:240-247 | submitting succeeds exactly for a new object when the transfer gets through, and then submits once |
| `TokenTransfers.FetchesInOrder` | connect/src/protocols/tokenBridge/tokenTransfer.ts:262-274 | for any number of attestations: the loop throws exactly at the first whose message is neither there nor to be had, with all before it fetched and the rest untouched |
| `TokenTransfers.FetchSucceedsIff` | connect/src/protocols/tokenBridge/tokenTransfer.ts:251-288 | fetching succeeds exactly when the message is signed and its completion answered, and what it leaves behind in every case |
| `TokenTransfers.CompleteSucceedsIff` | connect/src/protocols/tokenBridge/tokenTransfer.ts:292-311 | completing succeeds exactly from the attestation on when the redeem transactions get through, and redeems once |
| `TokenTransfers.CallsRecord` | connect/src/protocols/tokenBridge/tokenTransfer.ts:240-311 | over every sequence of calls: the transactions held are those it began with, those of the submission on the source context and those of all completions in order on the destination context; each completion redeems once |
| `TokenTransfers.ReceiptListsHashes` | connect/src/protocols/tokenBridge/tokenTransfer.ts:526-578 | so the receipt of a new transfer through its own contexts lists just the hashes of its submission and of its completions, each on their chain in order, and says finalized exactly when there are completions with hashes |
| `TokenTransfers.ReceiptTellsState` | connect/src/protocols/tokenBridge/tokenTransfer.ts:526-578 | and in every state it tells: created, submitted, known by its message id, attested or finalized, exactly by what there is of the transfer |
| `TokenTransfers.CallsKeep` | connect/src/protocols/tokenBridge/tokenTransfer.ts:238-311 | over every sequence of calls, thrown or not: one successful source submission at most, Attested is never lost, ids and signed messages never change and none is fetched twice |
| `TokenTransfers.StateFallsIff` | connect/src/protocols/tokenBridge/tokenTransfer.ts:292-311 | the state falls exactly when a finalized transfer is completed once more |
| `TokenTransfers.CompletedOnceMoreFalls` | connect/src/protocols/tokenBridge/tokenTransfer.ts:275-309 | such an object is made: `from` a message that is redeemed already, completed once more |
| `TokenTransfers.AgreesIff` | connect/src/protocols/tokenBridge/tokenTransfer.ts:526-578 | the receipt says Attested or later exactly when the object does, in every reachable state but that of a transfer submitted through a source context on the destination chain |
| `TokenTransfers.ReceiptsAgree` | connect/src/protocols/tokenBridge/tokenTransfer.ts:526-578 | otherwise they always agree, and the receipt is well-formed for the tracker |
| `TokenTransfers.OverriddenContextDisagrees` | connect/src/protocols/tokenBridge/tokenTransfer.ts:165-166 | one call reaches the exception |
| `CircleTransfers.CircleTransfer.constructor` | connect/src/protocols/cctp/cctpTransfer.ts:66-78 | a new transfer is created, with the chain contexts given or looked up |
| `CircleTransfers.CircleTransfer.InitiateTransfer` | connect/src/protocols/cctp/cctpTransfer.ts:268-276 | the object and the exception after the call are those of the specification |
| `CircleTransfers.CircleTransfer.SignAll` | connect/src/protocols/cctp/cctpTransfer.ts:317-325 | the signing loop signs what lacks a signature, in place where the object already has the attestations |
| `CircleTransfers.CircleTransfer.FetchAttestation` | connect/src/protocols/cctp/cctpTransfer.ts:344-358 | the object and the exception after the call, also part way, are those of the specification |
| `CircleTransfers.CircleTransfer.CompleteTransfer` | connect/src/protocols/cctp/cctpTransfer.ts:377-396 | completing adds the redeem transactions and leaves the state alone |
| `CircleTransfers.CircleTransfer.GetReceipt` | connect/src/protocols/cctp/cctpTransfer.ts:683-737 | the receipt built field by field is the one the last telling field decides |
| `CircleTransfers.FromIsInv` | connect/src/protocols/cctp/cctpTransfer.ts:195-264 | every object made from details, a Circle message or its transaction satisfies the invariant, and one is made from a message exactly when its signature and its completion are answered |
| `CircleTransfers.ContextsOf` | connect/src/protocols/cctp/cctpTransfer.ts:66-78 | an object works through the chain contexts it was given, or through those of its own chains |
| `CircleTransfers.InitiateSucceedsIff` | connect/src/protocols/cctp/cctpTransfer.ts:268-276 | submitting succeeds exactly for a new object when the transfer gets through, and then submits once |
| `CircleTransfers.SignsInOrder` | connect/src/protocols/cctp/cctpTransfer.ts:317-325 | for any number of attestations: the signing loop throws exactly at the first that has no signature and gets none, with all before it signed and the rest untouched |
| `CircleTransfers.ChecksInOrder` | connect/src/protocols/cctp/cctpTransfer.ts:349-356 | for any number of attestations: the completion check throws exactly at the first that is not answered, and any confirmed before it finalizes |
| `CircleTransfers.FetchSucceedsIff` | connect/src/protocols/cctp/cctpTransfer.ts:333-358 | fetching succeeds exactly when the message is known or found, signed, and its completion answered, and what it leaves behind in every case |
| `CircleTransfers.CompleteSucceedsIff` | connect/src/protocols/cctp/cctpTransfer.ts:377-396 | completing succeeds exactly for an attested object with a signature that is not empty, when the redeem transactions get through |
| `CircleTransfers.CallsRecord` | connect/src/protocols/cctp/cctpTransfer.ts:268-396 | over every sequence of calls: the transactions held are those it began with, those of the submission on the source context and those of all completions in order on the destination context |
| `CircleTransfers.ReceiptListsHashes` | connect/src/protocols/cctp/cctpTransfer.ts:683-737 | so the receipt of a new transfer through its own contexts lists just the hashes of its submission and of its completions, each on their chain in order, and says redeemed exactly when there are completions with hashes |
| `CircleTransfers.ReceiptTellsState` | connect/src/protocols/cctp/cctpTransfer.ts:683-737 | and in every state it tells: created, submitted, attested with what message and signature, or redeemed, exactly by what there is of the transfer |
| `CircleTransfers.CallsKeep` | connect/src/protocols/cctp/cctpTransfer.ts:266-397 | over every sequence of calls, thrown or not, and whatever the API answers: one successful source submission at most, Attested is never lost, the message never changes, nor does a signature that is not empty |
| `CircleTransfers.AttestationsChangeIff` | connect/src/protocols/cctp/cctpTransfer.ts:317-325 | the attestations of an attested object change exactly when another signature is fetched for an empty one |
| `CircleTransfers.StateFallsIff` | connect/src/protocols/cctp/cctpTransfer.ts:333-358 | the state falls exactly when a finalized transfer that has or gets a signature is fetched again and the chain does not confirm it |
| `CircleTransfers.FetchedOnceMoreFalls` | connect/src/protocols/cctp/cctpTransfer.ts:333-358 | such an object is made: `from` a message that is completed already, fetched again while the chain cannot be asked |
| `CircleTransfers.ReceiptsAgreeIff` | connect/src/protocols/cctp/cctpTransfer.ts:683-737 | receipt and object agree on being attested in exactly the states that are not misplaced, and the tracker can follow the receipt in exactly those of them that are not attested with an empty signature |
| `CircleTransfers.OverriddenContextIsMisplaced` | connect/src/protocols/cctp/cctpTransfer.ts:683-737 | a misplaced object is made: one call on a transfer whose source context was pointed at the destination chain |
| `CircleTransfers.EmptySignatureIsAttested` | connect/src/protocols/cctp/cctpTransfer.ts:320-325 | an empty signature makes an attested object that cannot be completed, with a receipt the tracker cannot follow |
| `Retry.Retrying.constructor` | connect/src/tasks.ts:33-35 | `maxRetries` is the timeout divided by the interval, rounded down |
| `Retry.Retrying.OnFirst` | connect/src/tasks.ts:37-42 | the first attempt settles the promise or sets the interval |
| `Retry.Retrying.OnTick` | connect/src/tasks.ts:44-52 | a tick gives up or starts an attempt, whether or not others are in flight |
| `Retry.Retrying.OnComplete` | connect/src/tasks.ts:51-65 | a later attempt settles the promise, and moves the counter after its await unless it threw |
| `Retry.SettlesByVerdict` | connect/src/tasks.ts:36-69 | in every interleaving the promise settles with the first value or error in completion order, or with null, and then only after at least maxRetries + 1 null completions |
| `Retry.SettledForGood` | connect/src/tasks.ts:44-66 | once settled the settlement stays and no further attempt starts |
| `Retry.RetriesAreCounted` | connect/src/tasks.ts:51-65 | in every interleaving the counter is the number of later attempts that have ended without throwing |
| `Retry.ExceedsMaxRetriesIff` | connect/src/tasks.ts:33-66 | in every run the task is called more than maxRetries + 1 times exactly when an attempt is in flight at the tick with maxRetries ticks before it |
| `Retry.DecisiveTick` | connect/src/tasks.ts:44-52 | that tick gives up exactly when nothing is in flight, and otherwise starts one attempt too many |
| `Retry.CallsAreBounded` | connect/src/tasks.ts:33-66 | the calls are at most maxRetries + 1 without such an overlap, and in every run each overlapping tick adds one at most |
| `Retry.OverlapExceedsMaxRetries` | connect/src/tasks.ts:45-65 | for every positive maxRetries and every number of calls there is a run with that many; with maxRetries zero there is only the first call |
| `Retry.SettlesInTime` | connect/src/tasks.ts:33-66 | by the first tick past the timeout the promise is settled or an attempt overlapped the deciding tick; without overlaps it is settled |
| `Batching.SignSendWait` | connect/src/common.ts:43-75 | the loop sends the batches of the stream in order until one is refused, also of a stream that breaks off with an exception |
| `Batching.BatchesAreFewest` | connect/src/common.ts:50-72 | the batches concatenate to the stream, each is one transaction or all parallelizable, and no way of sending it that respects this takes fewer calls |
| `Batching.FewestIsUnique` | connect/src/common.ts:50-72 | any other way of sending it takes more calls, and leaves two batches in a row that could have been one |
| `Batching.SentInOrder` | connect/src/common.ts:59-74 | whatever the sender answers, if batch k is refused, exactly the batches before it were sent and none after it is tried |
| `Batching.BreakingLosesTheBuffer` | connect/src/common.ts:49-72 | a stream that breaks off loses exactly the parallelizable transactions at its end; all before them are sent in the batches of the whole stream |
| `Batching.IdsInOrder` | connect/src/common.ts:59-74 | with a sender that names transactions in order, the ids collected are those of the batches accepted |
| `Batching.OneIdPerTransaction` | connect/src/common.ts:47-74 | with a sender that names transactions in order, the result is one id per transaction, in stream order |
| `SolanaSender.TryOnce` | platforms/solana/src/signer.ts:203-247 | one attempt extends the log legally, and after a retryable failure fetches a new block |
| `SolanaSender.SendOne` | platforms/solana/src/signer.ts:189-247 | the resubmission loop ends in one signature of this transaction, or throws for a reason, with fee instructions added once |
| `SolanaSender.Confirm` | platforms/solana/src/signer.ts:252-276 | the wait succeeds exactly when every signature is confirmed without an error, all with the one block given |
| `SolanaSender.SignAndSend` | platforms/solana/src/signer.ts:174-279 | if every transaction is sent in the end, with only errors before it that may pass, and nothing else fails, just these signatures are returned; on any return `txids[i]` is the signature of a successful send of transaction i and all are confirmed with the block fetched last; it throws only when something failed for good |
| `SolanaSender.RetryableIff` | platforms/solana/src/signer.ts:146-172 | the errors retried are, by their texts, an expired transaction, and a failed simulation that has no block hash or whose first logged program error is about the size of an account |
| `SolanaSender.OtherErrorsEnd` | platforms/solana/src/signer.ts:148-156 | an error of another kind, or of a message that is not about a simulation, is never followed by another attempt |
| `SolanaSender.AttemptsAreBounded` | platforms/solana/src/signer.ts:203-230 | each transaction gets at most `_maxResubmits` attempts |
| `SolanaSender.AttemptsAdvance` | platforms/solana/src/signer.ts:180-247 | attempts go forward by transaction and attempt and never repeat |
| `SolanaSender.PredecessorsWereSent` | platforms/solana/src/signer.ts:180-247 | no transaction is attempted before every one ahead of it was sent |
| `SolanaSender.WhatFollowsFailure` | platforms/solana/src/signer.ts:146-172 | nothing follows a failure that is not retryable or is the last allowed; otherwise a block is fetched next |
| `SolanaSender.UsesLatestBlock` | platforms/solana/src/signer.ts:211-245 | every attempt uses the latest block fetched, so a resubmission uses one fetched after the failure |
| `SolanaSender.ConfirmedWithItsBlockIff` | platforms/solana/src/signer.ts:252-262 | a transaction is confirmed with the block it was sent with when no block was fetched after it, and, as long as fetches bring new blocks, only then |
| `SolanaSender.NoResubmitsSendNothing` | platforms/solana/src/signer.ts:203-203 | without resubmits nothing is attempted |
| `Amounts.TruncateRoundsDown` | core/base/src/utils/amount.ts:68-80 | truncation of a digit string rounds its value down to the kept precision and keeps the decimals |
| `Amounts.TruncateTwice` | core/base/src/utils/amount.ts:68-80 | truncating again changes nothing |
| `Amounts.ScaleIsExact` | core/base/src/utils/amount.ts:92-118 | scaling succeeds exactly when no digit is lost, and then keeps the exact value |
| `TokenQuotes.QuotePrecision` | connect/src/protocols/tokenBridge/tokenTransfer.ts:767-829 | a quote loses less than one wire unit and nothing at 8 or fewer decimals, promises exactly what is left, and fails just when the destination cannot express that |
| `TokenQuotes.EightDecimalsAreKept` | connect/src/protocols/tokenBridge/tokenTransfer.ts:767-780 | what is truncated is a multiple of the unit at eight decimals, short of the amount by less than that, and the amount itself at eight or fewer |
| `TokenQuotes.NoFeeIsManual` | connect/src/protocols/tokenBridge/tokenTransfer.ts:860-902 | an executor quote without a fee to be paid promises exactly the truncated amount, and fails just when a manual quote does |
| `TokenQuotes.ReferrerFeeConserves` | connect/src/protocols/tokenBridge/tokenTransfer.ts:860-902 | fee plus bridged remainder is the truncated amount, the remainder is positive and free of dust, and the destination amount is worth exactly the remainder |
| `TokenQuotes.ReferrerFeeFailsIff` | connect/src/protocols/tokenBridge/tokenTransfer.ts:862-902 | to a token with at least the wire's decimals, a fee fails a quote exactly when it is negative or leaves nothing |
| `TokenQuotes.FromWireIsExact` | connect/src/protocols/tokenBridge/tokenTransfer.ts:198-211 | the amount rebuilt from a message always scales, exactly, and is a fixed point of truncation |
| `TokenQuotes.WireRoundTrip` | connect/src/protocols/tokenBridge/tokenTransfer.ts:198-211 | a quoted amount goes over the wire and comes back |
| `TokenQuotes.AcceptedDropOffFits` | connect/src/routes/tokenBridge/executor.ts:168-262 | accepted options trip the drop-off limit exactly when it is negative; a gas instruction is followed by a drop-off exactly when the share comes to at least one unit |
| `TokenQuotes.ExecutorFailsIff` | connect/src/protocols/tokenBridge/tokenTransfer.ts:942-1021 | for every input, the exact conditions of the three refusals of an executor quote |
| `TokenQuotes.NearestPercent` | connect/src/routes/tokenBridge/executor.ts:249-261 | the share is rounded to the nearest whole percent, a half up |
| `TokenQuotes.AcceptsIff` | connect/src/routes/tokenBridge/executor.ts:168-175 | a route accepts no share, or any between none and all, and no other |
| `CctpQuotes.NormalizeTransferParams` | connect/src/routes/cctp/automatic.ts:158-205 | the native gas computed step by step is the share of the specification |
| `CctpQuotes.QuoteTransfer` | connect/src/protocols/cctp/cctpTransfer.ts:617-628 | a quote on normalized parameters: amount is destination plus native gas plus fee, the destination is never negative and at least one exactly when the amount is more than the fee, and the guard of `circleTransfer` is passed; it fails exactly below the minimum or for a share outside [0, 1] |
| `CctpQuotes.NormalizedLeavesEnough` | connect/src/routes/cctp/automatic.ts:158-205 | parameters that pass normalization leave a destination of at least zero, of at least one exactly when the amount is more than the fee, stay within the swap limit and pass the guard of `circleTransfer` |
| `CctpQuotes.GasIsShare` | connect/src/routes/cctp/automatic.ts:178-205 | for every share: the native gas is that share of all that may be swapped, short by less than a unit and a ten-thousandth, or all but one unit |
| `CctpQuotes.FullShare` | connect/src/routes/cctp/automatic.ts:190-197 | asking for everything leaves exactly one unit |
| `PorticoQuotes.QuoteSucceedsIff` | connect/src/routes/portico/automatic.ts:200-243 | a quote succeeds exactly when both swaps offer something, their sure outcome is at least the amount less its hundredth in common decimals, and the fee can be paid from it; the rest is the destination amount |
| `PorticoQuotes.SwapsSucceedIff` | connect/src/routes/portico/automatic.ts:360-392 | the two swap legs succeed exactly when both answer and offer something |
| `PorticoQuotes.LeastOfTwoSwaps` | connect/src/routes/portico/automatic.ts:360-392 | for all offers: the second swap is asked about 99.85% of what the first offers, rounded up, and the quote is based on as much of what the second offers; each leg fails as its own |
| `PorticoQuotes.FirstSwapFails` | connect/src/routes/portico/automatic.ts:360-392 | a first swap that throws or offers nothing fails first |
| `PorticoQuotes.ParNeverTooHigh` | connect/src/routes/portico/automatic.ts:41-43 | two floored 15 bps cuts never trip the 1% check |
| `PorticoQuotes.ParQuoteSucceeds` | connect/src/routes/portico/automatic.ts:200-243 | at par in equal decimals a quote succeeds for every amount of at least one that can pay the fee |
| `ConfigMerge.MergeOne` | tokenRegistry/src/scripts/utils.ts:27-36 | the loop over the keys of one source computes the recursive merge |
| `ConfigMerge.MergeDeep` | tokenRegistry/src/scripts/utils.ts:23-39 | shifting the sources off one by one is the fold of the merge |
| `ConfigMerge.ActionLaw` | tokenRegistry/src/scripts/utils.ts:23-39 | two overrides act on every configuration as their merge does exactly when the later goes into nothing falsy of the earlier |
| `ConfigMerge.Separating` | tokenRegistry/src/scripts/utils.ts:29-35 | otherwise there is a configuration that tells them apart |
| `ConfigMerge.FoldIsOneMerge` | tokenRegistry/src/scripts/utils.ts:38-38 | merging several sources is merging what they make of each other |
| `ConfigMerge.LastSourceWins` | tokenRegistry/src/scripts/utils.ts:23-39 | of several sources, the last with a leaf at a path decides what is read there, if nothing stands in its way by then |
| `ConfigMerge.MergeTwice` | tokenRegistry/src/scripts/utils.ts:23-39 | merging the same overrides again changes nothing |
| `ConfigMerge.LeavesAreReadBack` | tokenRegistry/src/scripts/utils.ts:29-35 | every leaf of the overrides is read back where no scalar or array of the base stands in its way |
| `ConfigMerge.BlockedPathsAreKept` | tokenRegistry/src/scripts/utils.ts:28-28 | and where one does, it stays |
| `ConfigMerge.MissedPathsAreKept` | tokenRegistry/src/scripts/utils.ts:29-35 | every path the overrides miss reads as before |
| `ConfigOverride.OverrideTree` | connect/src/config.ts:84-94 | the loop computes the recursive override, or throws exactly when that has no value |
| `ConfigOverride.ThrowsIff` | connect/src/config.ts:84-94 | an override throws exactly when it holds a null where it goes in, or goes into a truthy scalar of the base |
| `ConfigOverride.OverrideActionLaw` | connect/src/config.ts:84-94 | applying two overrides in turn equals applying what the second makes of the first, on every base that takes them, exactly when they are composable or no base takes them |
| `ConfigOverride.OverridesCompose` | connect/src/config.ts:84-94 | composable overrides that succeed in turn, arrays included, are merged without an exception and the merge does the same |
| `ConfigOverride.SeparatingOverride` | connect/src/config.ts:87-91 | otherwise there is a base that takes both and tells them apart |
| `ConfigOverride.OverrideTwice` | connect/src/config.ts:84-94 | overrides that succeed succeed a second time and change nothing |
| `ConfigOverride.OverrideLeavesAreReadBack` | connect/src/config.ts:86-92 | every leaf of overrides that succeed is read back |
| `ConfigOverride.OverrideMissedPathsAreKept` | connect/src/config.ts:86-92 | every path that they miss reads as before |
| `ConfigOverride.ChangesNothingIff` | connect/src/config.ts:84-94 | overrides leave a base as it is exactly when all they would write is there |
| `ConfigOverride.OverrideIsMergeIff` | connect/src/config.ts:84-94 | for every base and overrides: `override` leaves the tree of `mergeDeep` exactly when none is null or goes into a truthy scalar, and where they go into an array all they would write is there |
| `ConfigOverride.ArraysTellThemApart` | connect/src/config.ts:87-91 | `mergeDeep` leaves every array as it is, `override` exactly those in which nothing is to be written |
| `ConfigOverride.Configs.constructor` | connect/src/config.ts:67-67 | one shared tree per network |
| `ConfigOverride.Configs.ApplyOverrides` | connect/src/config.ts:63-70 | overrides are written into the shared tree of their network and no other; they throw, and agree with `mergeDeep`, under the exact conditions above |
| `RegistryUpdate.GetForeignAssetsData` | tokenRegistry/src/scripts/foreignAssets.ts:73-117 | the loop over the chains throws exactly when some check clashes and otherwise finds exactly the missing assets |
| `RegistryUpdate.MissingIs` | tokenRegistry/src/scripts/foreignAssets.ts:73-117 | in terms of the answers alone: which assets are missing, with which address and decimals, and exactly when the check of a token clashes |
| `RegistryUpdate.GetForeignAssetsDataForChain` | tokenRegistry/src/scripts/foreignAssets.ts:121-146 | the updates of one chain, grouped, are those suggested for its tokens; it rejects exactly when an address does not parse |
| `RegistryUpdate.GetSuggestedUpdates` | tokenRegistry/src/scripts/foreignAssets.ts:148-184 | the flattened and regrouped updates are exactly those wanted, and their count is the number of foreign assets among them |
| `RegistryUpdate.WantedIs` | tokenRegistry/src/scripts/foreignAssets.ts:121-184 | in terms of configuration and answers alone: exactly which foreign assets a run suggests |
| `RegistryUpdate.RejectsIff` | tokenRegistry/src/scripts/foreignAssets.ts:129-131 | and exactly when it rejects |
| `RegistryUpdate.AddSpreads` | tokenRegistry/src/scripts/foreignAssets.ts:163-181 | updates of one token that come twice are both kept, the later over the earlier, and those of other tokens are left alone |
| `RegistryUpdate.SuggestionsMerged` | tokenRegistry/src/scripts/updateForeignAssetConfig.ts:22-24 | deep-merging the suggestions into the configuration tree adds those foreign assets and does nothing else |
| `RegistryUpdate.CheckEnvConfig` | tokenRegistry/src/scripts/updateForeignAssetConfig.ts:19-26 | what is written back is the tree of the updated configuration |
| `RegistryUpdate.RunConverges` | tokenRegistry/src/scripts/foreignAssets.ts:148-184 | with the same answers, a second run on the updated configuration suggests nothing |
| `RegistryUpdate.ConfigTreeIsInjective` | tokenRegistry/src/scripts/updateForeignAssetConfig.ts:12-15 | the file determines the configuration that is read from it |
| `RegistryUpdate.WrittenAt` | tokenRegistry/src/scripts/updateForeignAssetConfig.ts:22-25 | where the file holds each foreign asset of a token, and with what address and decimals |
| `RegistryUpdate.CheckTwice` | tokenRegistry/src/scripts/updateForeignAssetConfig.ts:19-26 | whatever is read from the file that a first run left, a second run wants nothing and writes that very file, or rejects as the first did |
| `RegistryUpdate.NothingIsAltered` | tokenRegistry/src/scripts/updateForeignAssetConfig.ts:19-26 | tokens, their other properties and their foreign assets all stay |
| `RegistryUpdate.EntryConverges` | tokenRegistry/src/scripts/foreignAssets.ts:73-117 | afterwards a token without a clash has every foreign asset the chains know, as they know it, and one with a clash is untouched |
| `RegistryUpdate.OneClashHoldsUpTheToken` | tokenRegistry/src/scripts/foreignAssets.ts:138-143 | a clash on one chain leaves the whole token as it was |
| `ExamplesSplice.FindTags` | scripts/src/updateExamples.ts:10-31 | the scan pairs each opening tag line with the next tag line |
| `ExamplesSplice.ReadIs` | scripts/src/updateExamples.ts:18-20 | a line is a tag line exactly when the pattern stands in it, and its name is what capitals and underscores are gathered from the first such place to the end of the line |
| `ExamplesSplice.Splice` | scripts/src/updateExamples.ts:75-79 | a splice takes out a middle part and leaves what is before and after it |
| `ExamplesSplice.SpliceAll` | scripts/src/updateExamples.ts:63-82 | the loop with a running offset equals replacing all regions of the original at once |
| `ExamplesSplice.RewritesPieces` | scripts/src/updateExamples.ts:63-82 | whatever the snippets hold, the lines outside closed regions stay where they are between the bodies, in order, and each body alone is replaced |
| `ExamplesSplice.TagsStay` | scripts/src/updateExamples.ts:10-31 | when no snippet holds a tag line, the same regions are found again afterwards, by number and name |
| `ExamplesSplice.OutsideStays` | scripts/src/updateExamples.ts:63-82 | and scanning the rewritten file again finds the same lines outside the regions, when no snippet holds a tag line |
| `ExamplesSplice.RewriteTwice` | scripts/src/updateExamples.ts:63-82 | rewriting again changes nothing if no snippet holds a tag line |
| `ReadmeUpdate.SplitJoin` | scripts/src/updateExamples.ts:64-64 | splitting undoes joining on line breaks, except that no lines come back as one empty line |
| `ReadmeUpdate.JoinSplit` | scripts/src/updateExamples.ts:84-84 | joining undoes splitting |
| `ReadmeUpdate.CollectExamples` | scripts/src/updateExamples.ts:40-61 | the nested loops over files and tags compute the fold in which later snippets replace earlier ones |
| `ReadmeUpdate.UpdateReadme` | scripts/src/updateExamples.ts:33-85 | the whole script, from texts to text, or its exception without tags |
| `ReadmeUpdate.RefusesIff` | scripts/src/updateExamples.ts:36-38 | the script refuses a README exactly when it has no two tag lines |
| `ReadmeUpdate.LastRegionWins` | scripts/src/updateExamples.ts:43-60 | the snippet of a name is the last region of that name in the last TypeScript file that has one |
| `ReadmeUpdate.ExamplesAreRegions` | scripts/src/updateExamples.ts:40-61 | every snippet is what some example file holds between a tag line of its name and the next, with no tag line in it |
| `ReadmeUpdate.ExampleLinesOf` | scripts/src/updateExamples.ts:70-73 | the lines put into a region are those of the example between its tag lines, fenced, and a link; an empty example gives one empty line |
| `ReadmeUpdate.LinkIs` | scripts/src/updateExamples.ts:70-73 | the link leads to the example's file in the repository, to the line after the snippet's own tag |
| `ReadmeUpdate.LinkMarkIff` | scripts/src/updateExamples.ts:70-73 | the inserted link line passes for a tag line exactly when the file name holds the mark |
| `ReadmeUpdate.UpdateTwice` | scripts/src/updateExamples.ts:33-85 | running the script on its own output changes nothing when no snippet's file name holds the mark |
| `ReadmeUpdate.SettlesIff` | scripts/src/updateExamples.ts:33-85 | it settles after one run on every README exactly under that condition |
| `AptosAddress.Construct` | platforms/aptos/src/address.ts:32-60 | the constructor's stepwise rewriting computes the parse, or its exception |
| `AptosAddress.ParseHexIff` | platforms/aptos/src/address.ts:12-60 | for every text: it is parsed exactly when it is of hexadecimal digits after an optional prefix, at most 64 of them or an even number, and to the bytes of these digits filled up with zeros in front |
| `AptosAddress.NothingIsZero` | platforms/aptos/src/address.ts:12-60 | even the empty text, which is the zero address |
| `AptosAddress.TypedIffValid` | platforms/aptos/src/types.ts:27-27 | the split on the separator recognizes exactly the texts of the pattern |
| `AptosAddress.WordIff` | platforms/aptos/src/types.ts:27-27 | the words of the pattern are of ASCII letters, digits and underscores |
| `AptosAddress.HexTextIff` | core/base/src/utils/encoding.ts:9-14 | a text is hexadecimal exactly when at least one digit, of either case, follows the optional prefix, and nothing else |
| `AptosAddress.DecodeEncode` | core/base/src/utils/encoding.ts:15-23 | decoding undoes encoding of bytes |
| `AptosAddress.CaseIsIgnored` | core/base/src/utils/encoding.ts:15-23 | capital digits are decoded as small ones are |
| `AptosAddress.RoundTripIff` | platforms/aptos/src/address.ts:32-60 | parsing what an address prints gives it back exactly when it has 32 bytes, or more with a leading digit that is not zero, and is not zero under a module |
| `AptosAddress.AptosRoundTrip` | platforms/aptos/src/address.ts:12-18 | for 32 bytes: always without a module, and under one unless the address is zero |
| `AptosAddress.ZeroTypeIsConstructible` | platforms/aptos/src/address.ts:62-66 | the zero address under any module can be parsed from a text, but not from what it prints |
| `AptosAddress.EqualsIff` | platforms/aptos/src/address.ts:79-82 | native equality holds exactly when the modules agree and the bytes do up to leading zero bytes |
| `AptosAddress.SameLengthEqualsIff` | platforms/aptos/src/address.ts:79-82 | so for addresses of one length exactly when bytes and module agree |

## Left out

- RPC, HTTP, wallets and contract clients: their answers are parameters.
- VAA and layout codecs, hashing, base58 and bech32: signed messages are opaque values.
- Timeouts handed on to API calls inside a tracker: an API that gives up is one that answers nothing or throws. The driver's own clock is modelled.
- `CircleTransfers.CircleTransfer.FetchAttestation`: the automatic branch, which also fetches relay messages, is not modelled, because it depends on message shapes that are not part of this model; nor is an object made from a Wormhole message.
- `CircleTransfers.CircleTransfer.CompleteTransfer`: the automatic branch, which always throws, is not modelled.
- `GatewayTransfer`: its repeated fetches depend on message shapes that are not part of this model.
- Overlapping calls of methods on one transfer object: calls are taken one after the other.
- Governor warnings and finality estimates in quotes: they do not change amounts.
- `determinePriorityFee` and the compute budget: the fee instructions are a parameter.
- Differences between legacy and versioned Solana transactions, and the same transaction object passed twice in one call: the instructions are a sequence per transaction.
- Floating point in percentages: shares are reals, with floor and rounding as in the source.
- The order of an object's keys and sharing of subtrees in the two merges: a tree is a value with a map of properties. What is left in the tree when `override` throws is not specified, beyond the other networks being untouched.
- A scalar or a string as the overrides themselves: their type demands an object.
- `Amounts.ScaleIsExact`: is about digit strings; `scale` itself checks nothing, but in the quotes it is given what `fromBaseUnits` has printed of an amount that is not negative, and its result goes through `units`, which refuses any other text.
- Comparison of an Aptos address with a universal address, which compares bytes and ignores the module.
- Serialization of the updated registry to JSON and back: the tree is what the file holds.
