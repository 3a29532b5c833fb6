# Quantum: canonical ledger, evidence chains, finance kernel and dataset admission in Dafny

This project models six parts of the Quantum repository and proves what they promise.

- **Canonical ledger and batch ingestion.** An append-only ledger of source rows and canonical events kept in five
  dictionaries, with supersession chains and returns counted against sales, and an ingestor that plans a batch on a fork
  and then commits it. `LedgerModel` and `IngestModel` hold the rules as functions on a state value, `Ledger` and `Ingest`
  the objects that update dictionaries in place, `LedgerInvariants`, `LedgerTheorems`, `LedgerReplay`, `LedgerBalance` and
  `LedgerExample` the theorems about the ledger, `IngestTheorems` and `IngestCounts` those about plans and counts, and
  `Reupload` those about ingesting a file again. `LedgerRefusals` and `IngestRefusals` say why an event is refused and what
  becomes of a candidate, from the fields of rows and events.
- **Evidence chains.** A typed graph of artifacts behind one metric snapshot: cycle search with an explicit stack and
  worklist reachability (`Graph`), the acceptance predicate over the verifier's tables (`Evidence`), a second description of
  the accepted chains that knows only the lists of nodes and edges (`EvidenceReference`), the condition for every diagnosis
  (`EvidenceDiagnoses`), both verifier layers as programs (`EvidenceVerifier`), and the shape of every accepted graph
  (`EvidenceTheorems`).
- **Safe expressions.** Typed values and rounding (`Values`, `Rounding`), the static checker (`Expression`), the eager
  evaluator (`Eager`), type soundness (`Soundness`), what each operator, text and variable comes to (`OperatorLaws`,
  `ValueLaws`), why an expression or a variable is refused (`ExpressionRefusals`), the lazy front end that removes unselected
  branches (`Lazy`, `LazyShape`, `LazyTheorems`, `LazyResults`, `LazyExample`), the decimal context (`Precision`), and the
  same walks as programs with a counter and lists that they update (`ExpressionPrograms`).
- **Rules.** Rule resolution (`Rules`, `RuleTheorems`, and from the fields of rules and contexts `RulePreference`) and the
  bounded cache of trusted traces (`TraceCache`, `TraceRecency`).
- **Financial kernel.** The kernel (`Kernel`), what each figure of it is and reports (`KernelOutcomes`), its reference
  calculation (`Oracle`), and their agreement (`KernelTheorems`, `KernelOracle`), the requests it computes at all
  (`KernelLimits`), the same kernel in its decimal context (`KernelPrecision`, `KernelContext`), and one worked request
  (`KernelExample`).
- **Admission and archives.** The dataset admission registry (`AdmissionModel`, `AdmissionTheorems`, `AdmissionAccess`,
  `Admission`), why its operations are refused and what they write (`AdmissionRefusals`), and the byte coverage check of ZIP
  archives (`ZipCoverage`), against a plain writer (`ZipWriter`) and against the archive format (`ZipGrammar`). The overall
  layout is section 4.3.6 of PKWARE APPNOTE.TXT; the record formats are sections 4.3.7, 4.3.9, 4.3.12 and 4.3.16.

Where a refusal carries a code, the conditions are listed in the order in which they are looked at, each with its code
(`Checks`), and the code of a refusal is proved to be that of the first condition that fails.

## How the model reads the program

- A method under a lock is one atomic step. Planning a batch and committing it are two steps; anything may be appended to
  the ledger between them.
- SHA-256 of canonical JSON is injective: fingerprints and trace identifiers are free constructors, a rule's digest is any
  injective function of the rule.
- Amounts and decimals are exact rationals. Every theorem about expressions holds for an arbitrary function `fl` that says
  what the decimal context makes of the exact result of one arithmetic operation; `Precision` says when that function does
  nothing. The kernel is written with exact arithmetic in `Kernel`, and with every result rounded by such an `fl` in
  `KernelContext`, which proves that in the context of a request the two differ in the one division at most, and there by
  one unit in the last place.
- The lines of one upload are numbered, so a line of an upload belongs to one record.
- Dictionaries, identifiers, time stamps and hashes that arrive in the wrong shape are refused before the modelled code
  does anything with them; the model starts from values of the right shape.
- Clocks, random tokens, file access and the XML parts of an inspection are parameters: an upload brings the outcome of
  opening it, an archive the directory that Python's `zipfile` read from it.
- Callers' variable names do not start with `if_state.`; such names are a constructor of their own. Declared dependencies
  and conditionals together stay within 128.
- Member errors of an `inputs` dictionary are reported in the caller's order, which the kernel model does not keep: it says
  that some input was rejected.

## Three facts about the code

- **Replaying is not always a no-op.** A stored return that a correction superseded is counted together with its own
  successor when it is appended again, and is refused if both do not fit beside the sale. `LedgerReplay.ReplayExact` gives
  the exact condition for every stored event, and `LedgerExample.SupersededReturnIsRefused` a reachable ledger where it
  bites. A refusal never changes the ledger.
- **Not every file can be ingested twice.** A file that was ingested once, uploaded again under its own or a new raw
  identifier and at any later time, comes back as duplicates exactly when none of its candidates was quarantined by the
  first plan and none of its returns has been crowded out as above. In every other case the second ingest ends with
  `SOURCE_RECORD_CONFLICT` and changes nothing: the row to be stored this time differs in its status from the row
  stored under the same identifier (`Reupload.SecondUpload`, `Reupload.SecondPlan`). `LedgerExample.CorrectedFileConflicts`
  is a file of a sale, its return and the correction of that return.
- **Every variable is checked.** Although the lazy evaluator skips unselected branches, all variables are normalised on
  every evaluation, so a variable outside the policy's limits is refused even if no selected branch uses it
  (`LazyResults.EveryVariableIsChecked`).

## Model

| member | source | states |
|---|---|---|
| LedgerInvariants.AppendExact | src/quantum/infrastructure/in_memory_canonical_ledger.py:305-373 | an append is accepted exactly when the row and the event fit what is stored: lineage, unique keys, predecessor revision, sale with room left |
| LedgerInvariants.AppendKeepsInv | src/quantum/infrastructure/in_memory_canonical_ledger.py:305-373 | every accepted append keeps the five dictionaries in agreement, every event traced to a VALID row, chains gap-free, returns within their sales |
| LedgerInvariants.ReversalExact | src/quantum/infrastructure/in_memory_canonical_ledger.py:240-303 | a return is accepted exactly when its sale is stored, terms agree, and it fits together with the returns it competes with |
| LedgerRefusals.RefusalExact | src/quantum/infrastructure/in_memory_canonical_ledger.py:134-373 | a row with its event is refused with the code of the first condition that fails, in a list of conditions on the fields of row and event and on what is stored: lineage, provenance, stored content, identity, succession, the sale named, product, quantity and amount, room |
| LedgerRefusals.RowRefusalExact | src/quantum/infrastructure/in_memory_canonical_ledger.py:305-338 | a row alone likewise |
| LedgerRefusals.AcceptedStores | src/quantum/infrastructure/in_memory_canonical_ledger.py:354-373 | what an accepted append writes into each of the five dictionaries, under which keys, and what it reports |
| LedgerRefusals.FingerprintExact | src/quantum/domain/source_rows.py:134-153 | two rows have one content fingerprint exactly when they differ in nothing but upload and time of ingestion |
| LedgerRefusals.GoodsExact | src/quantum/infrastructure/in_memory_canonical_ledger.py:260-283 | sale and return are comparable exactly when both name product, quantity and amount, and mismatched exactly when comparable in different product, unit or currency |
| LedgerTheorems.ReachableInv | src/quantum/infrastructure/in_memory_canonical_ledger.py:305-433 | the whole invariant holds after every sequence of batches of every tenant |
| LedgerTheorems.ReturnsConserved | src/quantum/infrastructure/in_memory_canonical_ledger.py:216-303 | in every reachable ledger the returns in force against a sale stay within its quantity and amount, in the same product and units, even when a return's revision moves to another sale |
| LedgerBalance.RoomInNumbers | src/quantum/infrastructure/in_memory_canonical_ledger.py:285-303 | there is room for a return exactly when its units and money, added to those of the listed returns that compete with it, stay within the sale |
| LedgerBalance.ReturnsAddUp | src/quantum/infrastructure/in_memory_canonical_ledger.py:216-303 | in every reachable ledger any returns in force against one sale add up, in units and in money, to no more than it |
| LedgerBalance.InForceExact | src/quantum/infrastructure/in_memory_canonical_ledger.py:216-238 | a return is in force exactly when it is stored, accepted, names the sale, and no stored event of the tenant supersedes it |
| LedgerTheorems.SupersededOnce | src/quantum/infrastructure/in_memory_canonical_ledger.py:187-214 | no event is superseded by two events |
| LedgerTheorems.RevisionsBelow | src/quantum/infrastructure/in_memory_canonical_ledger.py:187-214 | below a stored revision every revision is stored, with the same event type |
| LedgerTheorems.ChainsAreLinear | src/quantum/infrastructure/in_memory_canonical_ledger.py:187-214 | the revisions of a business key are 1..n, each superseding the one before, and exactly the n-th is in force |
| LedgerReplay.ReplayExact | src/quantum/infrastructure/in_memory_canonical_ledger.py:305-373 | a stored event is accepted again exactly when its row content is the stored one and it is not a superseded return without room |
| LedgerReplay.ReplayIsNoOp | src/quantum/infrastructure/in_memory_canonical_ledger.py:305-373 | appending a stored row and its event again leaves the ledger exactly as it was, outside that one exception |
| LedgerReplay.ViewDecides | src/quantum/infrastructure/in_memory_canonical_ledger.py:305-373 | whether and why an append is refused depends on the tenant's own data only |
| LedgerReplay.TenantsAreIsolated | src/quantum/infrastructure/in_memory_canonical_ledger.py:305-373 | an append never changes what another tenant sees |
| LedgerReplay.BatchesAreIsolated | src/quantum/infrastructure/in_memory_canonical_ledger.py:390-423 | a whole batch is answered as if the ledger held the tenant's data only, and leaves other tenants' data as it was |
| LedgerReplay.RunsAreIsolated | src/quantum/infrastructure/in_memory_canonical_ledger.py:305-433 | after any run a tenant sees exactly the ledger that its own calls alone would have built |
| LedgerReplay.BatchGrowth | src/quantum/infrastructure/in_memory_canonical_ledger.py:390-423 | a batch reports as inserted exactly as many rows and events as the ledger grows by |
| LedgerExample.SupersededReturnIsRefused | src/quantum/infrastructure/in_memory_canonical_ledger.py:216-303 | a reachable ledger refuses the replay of one of its own events |
| LedgerExample.CorrectedFileConflicts | src/quantum/ingestion/canonical_pipeline.py:216-273 | a reachable ledger refuses the second ingest of a file whose rows and events it holds |
| Ledger.InMemoryCanonicalLedger.ActiveReversals | src/quantum/infrastructure/in_memory_canonical_ledger.py:216-238 | collects exactly the accepted returns in force against the sale that do not stand to be superseded |
| Ledger.InMemoryCanonicalLedger.AddUp | src/quantum/infrastructure/in_memory_canonical_ledger.py:285-303 | the accumulation loop adds up exactly the competing returns and the candidate |
| Ledger.InMemoryCanonicalLedger.CheckReversal | src/quantum/infrastructure/in_memory_canonical_ledger.py:240-303 | the method decides as the rule does, whose refusals `LedgerRefusals.RefusalExact` states; the unit mismatch of stored returns cannot occur in a valid ledger |
| Ledger.InMemoryCanonicalLedger.AppendLocked | src/quantum/infrastructure/in_memory_canonical_ledger.py:305-373 | the in-place append reaches the state the rule says, keeps the invariant, and changes nothing on refusal |
| Ledger.InMemoryCanonicalLedger.AppendBatch | src/quantum/infrastructure/in_memory_canonical_ledger.py:390-423 | a batch is the sequential fold of its items, or restores all five dictionaries |
| Ledger.InMemoryCanonicalLedger.Fork | src/quantum/infrastructure/in_memory_canonical_ledger.py:425-433 | an independent ledger with the same contents |
| Ledger.InMemoryCanonicalLedger.TraceEvent | src/quantum/infrastructure/in_memory_canonical_ledger.py:472-488 | tracing succeeds on every stored event and returns the row the event's lineage names |
| Ledger.ReturnsShareTerms | src/quantum/infrastructure/in_memory_canonical_ledger.py:216-303 | the returns in force against a stored sale share its product and units |
| IngestTheorems.OrderedByRankTimeId | src/quantum/ingestion/canonical_pipeline.py:203-214 | of two candidates, one that supersedes never follows one that does not; of two that do not, one that a pending candidate supersedes never follows one that none does; within a class recognition times do not fall, and at equal times identifiers are in text order |
| IngestTheorems.AttemptExact | src/quantum/ingestion/canonical_pipeline.py:244-270 | one candidate is planned as it is if the ledger accepts it, as its quarantined row if the refusal is one that quarantines, is kept for later only for want of an event it names, and otherwise ends the plan; `IngestRefusals.OutcomeExact` says which of these it is, from the fields |
| IngestRefusals.WaitsExact | src/quantum/ingestion/canonical_pipeline.py:244-252 | a candidate whose row and identity fit waits exactly when it names a predecessor, or as a right version a sale, that the ledger does not hold |
| IngestRefusals.SuccessionRefusals | src/quantum/infrastructure/in_memory_canonical_ledger.py:187-214 | which unmet condition on revision and predecessor gives which code |
| IngestRefusals.ReversalRefusals | src/quantum/infrastructure/in_memory_canonical_ledger.py:240-303 | which unmet condition on a return and its sale gives which code |
| IngestRefusals.QuarantinedExact | src/quantum/ingestion/canonical_pipeline.py:253-264 | a candidate with a new row is set aside under a code, as that row with that one diagnostic, exactly when it contradicts what is stored in the way the code says |
| IngestRefusals.StoredRowConflicts | src/quantum/ingestion/canonical_pipeline.py:253-264 | a candidate that contradicts what is stored, on a row that is stored as VALID, ends the plan with SOURCE_RECORD_CONFLICT |
| IngestRefusals.FourCases | src/quantum/ingestion/canonical_pipeline.py:244-270 | every event agrees with what is stored, names what is absent, contradicts it in the way of one of five codes, or cannot be compared, and the four exclude one another |
| IngestRefusals.OutcomeExact | src/quantum/ingestion/canonical_pipeline.py:244-270 | a candidate with a new row is planned as it is exactly when it agrees, and ends the plan exactly when it cannot be compared |
| IngestTheorems.TakenInOrder | src/quantum/ingestion/canonical_pipeline.py:224-271 | at every step the candidate dealt with is, of those still pending, the first in the prescribed order that need not wait, and is planned as the ledger answers at that step |
| IngestTheorems.PlanRestSound | src/quantum/ingestion/canonical_pipeline.py:224-273 | planning ends with every candidate processed or left, its items lead the staging ledger to its final state, and it stays unresolved only when every candidate left has to wait |
| IngestTheorems.PlanBatchSound | src/quantum/ingestion/canonical_pipeline.py:216-273 | a whole plan is the immediate rows and then every candidate exactly once, with its event or as its quarantined row, and is accepted by the unchanged ledger; when it is unresolved every candidate left names an absent superseded or reversed event |
| IngestTheorems.PlanBatchEnding | src/quantum/ingestion/canonical_pipeline.py:224-273 | a plan fails exactly when the immediate rows are refused, when a candidate given its turn cannot be planned, or when only waiting candidates are left, with the code that belongs to each |
| LedgerExample.ExampleIsPlanned | src/quantum/ingestion/canonical_pipeline.py:216-273 | a file of a sale, its return and the correction of that return, ingested into an empty ledger, is planned with all three events: the correction waits for the return, and the return for the sale |
| IngestCounts.RowsTally | src/quantum/ingestion/canonical_pipeline.py:402-404 | inserted and duplicate rows are counted result by result |
| IngestCounts.EventsTally | src/quantum/ingestion/canonical_pipeline.py:402-410 | inserted and duplicate events are the items with an event whose result says so |
| IngestCounts.QuarantinedTally | src/quantum/ingestion/canonical_pipeline.py:411-417 | quarantined rows are the items without an event, told apart by whether the row was inserted |
| IngestCounts.EventIdsFromFront | src/quantum/ingestion/canonical_pipeline.py:431 | the identifiers reported are those of the events of the plan, in its order |
| IngestCounts.PreparedFromFront | src/quantum/ingestion/canonical_pipeline.py:332-394 | every line of the file, in its order, is among the rows set aside or among the candidates |
| Ingest.SyntheticCsvCanonicalIngestor.ResolveBatch | src/quantum/ingestion/canonical_pipeline.py:216-273 | the passes over a fork that is updated in place produce the declared plan, and leave the ledger itself alone |
| Ingest.SyntheticCsvCanonicalIngestor.Commit | src/quantum/ingestion/canonical_pipeline.py:395-432 | on whatever the ledger has become, the plan is the sequential fold or nothing; each count of the report is the number of items of that kind, and the counts add up to the rows and to the growth of the ledger |
| Ingest.SyntheticCsvCanonicalIngestor.Ingest | src/quantum/ingestion/canonical_pipeline.py:275-432 | an ingest fails exactly when planning does and then changes nothing; otherwise the ledger grows by the plan and by the counts; a batch known to the ledger comes back as duplicates with only its lines recorded if every event is repeatable, and is otherwise refused as a conflict |
| Reupload.RepeatsAddNothing | src/quantum/infrastructure/in_memory_canonical_ledger.py:390-423 | a batch of rows and events that are stored, in whatever upload, is accepted, reports duplicates only, and adds no more than its lines |
| Reupload.KnownPlan | src/quantum/ingestion/canonical_pipeline.py:216-273 | a batch that has been through the ledger is planned as it is if every event is repeatable, and otherwise ends with SOURCE_RECORD_CONFLICT |
| Reupload.BatchGrows | src/quantum/infrastructure/in_memory_canonical_ledger.py:390-423 | a batch takes nothing away, and the ledger holds every item of it from then on |
| Reupload.SecondUpload | src/quantum/ingestion/canonical_pipeline.py:275-432 | a file ingested once is known whenever it is uploaded again, and repeatable exactly when no candidate was quarantined by the plan and no return is crowded |
| Reupload.SecondPlan | src/quantum/ingestion/canonical_pipeline.py:275-432 | the second ingest of a file adds only lines, or is refused as a conflict, exactly by that condition |
| Graph.FinishedIsAcyclic | src/quantum/evidence/verification.py:154-177 | a graph whose nodes finish after all their targets has no cycle |
| Graph.HasCycle | src/quantum/evidence/verification.py:154-177 | the three-colour search with an explicit stack ends and answers true exactly when some path closes on itself |
| Graph.ReachableFrom | src/quantum/evidence/verification.py:332-342 | the worklist search finds exactly the nodes some path leads to |
| EvidenceVerifier.VerifyChain | src/quantum/evidence/verification.py:180-424 | the first layer lists exactly the diagnoses whose condition holds, each once, and none exactly when the graph is acceptable around a unique root, in either description of acceptable chains |
| EvidenceVerifier.VerifyStrictly | src/quantum/evidence/runtime_validation.py:97-206 | the second layer adds exactly the diagnoses whose condition holds |
| EvidenceVerifier.Verify | src/quantum/evidence/runtime_validation.py:97-206 | both layers together list exactly the diagnoses whose condition holds, and accept exactly the strictly acceptable chains, in either description |
| EvidenceDiagnoses.SilentIsAccepted | src/quantum/evidence/verification.py:180-424 | no condition for a diagnosis of the first layer holds exactly when the chain is acceptable |
| EvidenceDiagnoses.StrictlySilent | src/quantum/evidence/runtime_validation.py:97-206 | and for the second layer, of chains that the first accepts |
| EvidenceDiagnoses.FirstNodes | src/quantum/evidence/verification.py:232-266 | of the nodes with one identifier the first is the one that counts |
| EvidenceDiagnoses.EnteredEdges | src/quantum/evidence/verification.py:289-323 | an edge enters the graph exactly when it has ends, type and number, both ends are nodes, and its kind of link leads between their types |
| EvidenceReference.SoundExact | src/quantum/evidence/verification.py:180-424 | acceptance, said of the lists of nodes and edges with every kind of link written out: header, nodes, one root, edges that fit, no cycle, everything reachable, the seven kinds of link, approved profiles, events down to retained files |
| EvidenceReference.StrictlySoundExact | src/quantum/evidence/runtime_validation.py:97-206 | likewise for what the second layer asks |
| EvidenceReference.SevenLinks | src/quantum/evidence/verification.py:344-354 | the root of every accepted chain has a link of each of the seven kinds, to a node of the type that belongs to it |
| EvidenceReference.PoliciesAreApproved | src/quantum/evidence/verification.py:364-387 | each rounding policy and each source authority of an accepted profile has a linked approval node with status APPROVED, an approver and a readable time |
| EvidenceReference.NumberedExact | src/quantum/evidence/verification.py:356-362 | the numbers of the root's transformations permute 0..n-1 exactly when they are distinct and below their count |
| EvidenceVerifier.SortedIsPermutation | src/quantum/evidence/verification.py:356-362 | sorting sequence numbers to 0, 1, 2, ... says that they are a permutation of it |
| EvidenceTheorems.DepthRises | src/quantum/evidence/verification.py:22-41 | along any path under the edge signatures artifact types never lead back towards the snapshot |
| EvidenceTheorems.CyclesStayOnOneLevel | src/quantum/evidence/verification.py:22-41 | any cycle the edge signatures allow lies wholly among metric snapshots or wholly among approvals |
| EvidenceTheorems.RootIsTheSource | src/quantum/evidence/verification.py:286-346 | in an accepted chain no edge leads to the root |
| EvidenceTheorems.AcceptedChain | src/quantum/evidence/runtime_validation.py:129-204 | an accepted chain is acyclic, wholly reachable from its root, with complete paths from each of its events to files, one profile and transformation numbers that permute 0..n-1 |
| EvidenceTheorems.ProfileRulesAreResolved | src/quantum/evidence/runtime_validation.py:156-204 | the profile's rules are exactly the rules the root's resolutions select |
| Rounding.RoundToIdempotent | src/quantum/finance/_rounding.py:190-218 | rounding again, in any mode, changes nothing |
| Rounding.RoundToMonotone | src/quantum/finance/_rounding.py:190-218 | rounding keeps the order of numbers, in all six modes |
| Rounding.RoundToError | src/quantum/finance/_rounding.py:190-218 | rounding is off by less than one unit in the last place, by at most half a unit in the HALF modes |
| Rounding.RoundToMeaning | src/quantum/finance/_rounding.py:190-218 | the result of rounding is the one multiple of the quantum that its mode describes: the nearest one, with ties to the even neighbour or away from zero, or the next one towards zero, away from zero, below or above |
| Rounding.RoundedOnce | src/quantum/finance/_rounding.py:190-218 | each mode describes one number only |
| Rounding.RoundToDirection | src/quantum/finance/_rounding.py:190-218 | DOWN never grows in magnitude, UP never shrinks, FLOOR is never above and CEILING never below |
| Rounding.QuantizeMeaning | src/quantum/finance/_rounding.py:190-218 | mode and scale that belong to each application point, and the refusal of a point that the policy does not list |
| Rounding.DigitsExact | src/quantum/finance/_common.py:134-157 | a positive number has n digits exactly when it lies from 10^(n-1) to below 10^n |
| Rounding.AdjustedExact | src/quantum/finance/_rounding.py:207-210 | the leading digit of a number other than zero stands at the place that `adjusted` gives |
| Rounding.QuantizeHasRoom | src/quantum/finance/_rounding.py:207-217 | the precision set for quantize always holds the rounded coefficient |
| Values.Winner | src/quantum/finance/_rounding.py:60-84 | some value is not VALID exactly when a state wins, and no value has a state of higher precedence |
| Values.LeastReason | src/quantum/finance/_rounding.py:67-79 | the reason reported is the first in code-point order among the values in the winning state |
| Values.AdmittedFits | src/quantum/finance/_common.py:275-343 | every admitted variable has a good signature and a value of its type |
| ValueLaws.CurrencyExact | src/quantum/finance/_common.py:187-198 | a currency is three capital letters |
| ValueLaws.DigitCountExact | src/quantum/finance/_common.py:134-157 | a decimal text is within a precision exactly when its digits and its scale are |
| ValueLaws.DecimalTextLaw | src/quantum/finance/_rounding.py:221-229 | a decimal text comes to its number rounded to the calculation scale in the calculation mode, or to the first limit it breaks |
| ValueLaws.AdmittedLaw | src/quantum/finance/_common.py:275-343 | an admitted variable keeps signature, state and reason, and is traced to itself besides its own sources |
| ValueLaws.AdmittedDecimalLaw | src/quantum/finance/_rounding.py:41-57 | a decimal variable stands for its number rounded to the calculation scale |
| ValueLaws.PropagationLaw | src/quantum/finance/_rounding.py:60-84 | a conflict goes before a block, a block before unavailability, that before emptiness |
| ValueLaws.ReportLaw | src/quantum/finance/_rounding.py:60-84 | what stands for values that are not all VALID names the state and the least reason behind it, with the sources of all values in that state |
| Expression.OperationExact | src/quantum/finance/_expression_eager.py:84-122 | the signature checks of an operation accept exactly what its typing rule allows |
| Expression.CheckExact | src/quantum/finance/_expression_validation.py:65-150 | the checker with its running node counter accepts exactly the well typed expressions within 128 nodes and depth 24 |
| ExpressionRefusals.NodeAnswer | src/quantum/finance/_expression_validation.py:65-150 | the checker gives the code of the first condition that fails, in a list of conditions that follows the expression from left to right: limits, head, signature, arguments, operation |
| ExpressionRefusals.ExpressionRefusal | src/quantum/finance/_expression_lazy.py:13-34 | an expression that fails one of its conditions is refused with its code before anything is evaluated |
| ExpressionRefusals.BindingsAnswer | src/quantum/finance/_common.py:275-343 | the first variable that cannot be admitted, with the first of its conditions that fails, gives the code |
| ExpressionRefusals.VariableAnswer | src/quantum/finance/_expression_eager.py:181-204 | a variable in an expression is refused as undeclared, unknown, badly signed, or of another type, unit or currency, in this order |
| ValueLaws.AritiesExact | src/quantum/finance/_expression_eager.py:218-238 | how many arguments each operator takes |
| ValueLaws.LimitsExact | src/quantum/finance/_expression_validation.py:46-150 | 128 nodes, 24 levels, 16 arguments, 128 distinct dependencies |
| Eager.WalkIsEval | src/quantum/finance/_expression_eager.py:155-350 | the running counter changes no value or error within the limits and refuses everything outside them |
| Soundness.ApplySound | src/quantum/finance/_expression_eager.py:243-350 | a well typed operation on well formed values never fails and returns a value of its declared signature |
| OperatorLaws.AddExactLaw | src/quantum/finance/_expression_eager.py:254-259 | with exact arithmetic ADD gives the sum of its arguments, in whatever order they are added |
| OperatorLaws.AddLaw | src/quantum/finance/_expression_eager.py:254-259 | ADD adds from the left and rounds each step |
| OperatorLaws.AddWholeLaw | src/quantum/finance/_expression_eager.py:254-259 | ADD of integers is their sum |
| OperatorLaws.SubtractLaw | src/quantum/finance/_expression_eager.py:260-261 | the difference is what added to the right gives the left |
| OperatorLaws.SubtractWholeLaw | src/quantum/finance/_expression_eager.py:260-261 | likewise for integers |
| OperatorLaws.InverseLaws | src/quantum/finance/_expression_eager.py:260-317 | with exact arithmetic difference plus right is left, and a quotient by a nonzero number times it is left |
| OperatorLaws.MultiplyLaw | src/quantum/finance/_expression_eager.py:286-296 | MULTIPLY gives the product |
| OperatorLaws.DivideLaw | src/quantum/finance/_expression_eager.py:298-317 | a quotient is what times the right gives the left |
| OperatorLaws.DivideByZeroLaw | src/quantum/finance/_expression_eager.py:298-317 | division by zero is BLOCKED with its reason, and with the sources of both arguments |
| OperatorLaws.NegateLaw | src/quantum/finance/_expression_eager.py:274-285 | NEGATE gives what added to the argument is zero |
| OperatorLaws.NegateWholeLaw | src/quantum/finance/_expression_eager.py:274-285 | likewise for integers |
| OperatorLaws.AbsLaw | src/quantum/finance/_expression_eager.py:274-285 | ABS gives the argument or its negative, whichever is not negative |
| OperatorLaws.AbsWholeLaw | src/quantum/finance/_expression_eager.py:274-285 | likewise for integers |
| OperatorLaws.ExtremeLaw | src/quantum/finance/_expression_eager.py:262-265 | MIN and MAX give one of the numbers, and none is below it, or above it |
| OperatorLaws.CompareLaw | src/quantum/finance/_expression_eager.py:333-350 | each comparison is true exactly when its relation holds between the numbers |
| OperatorLaws.EqualTruthLaw | src/quantum/finance/_expression_eager.py:333-350 | and equality of truth values when they are the same |
| OperatorLaws.ChoiceLaw | src/quantum/finance/_expression_eager.py:319-331 | IF gives its second argument when the first is true and its third otherwise, value and sources as they are stated |
| ValueLaws.LiteralLaw | src/quantum/finance/_expression_eager.py:163-179 | what a literal of each type comes to |
| ValueLaws.VariableLaw | src/quantum/finance/_expression_eager.py:181-204 | a variable is used at its own signature only, and stands for its value with all its sources |
| ValueLaws.TooLargeLaw | src/quantum/finance/_expression_eager.py:155-159 | a node beyond 128 nodes or 24 levels is refused as too large by the evaluator itself |
| ValueLaws.ResultLaw | src/quantum/finance/_expression_eager.py:352-371 | a result that is a number is rounded to the calculation scale, any other is left as it is |
| Soundness.ExtremeIsExtreme | src/quantum/finance/_expression_eager.py:262-265 | MIN and MAX return one of their arguments, and none is below it, or above it |
| Soundness.TypeSoundness | src/quantum/finance/_expression_validation.py:65-150 | after the static check eager evaluation raises no type, unit, currency, arity, operator, dependency or size error, and the result has the root's signature |
| Lazy.BareApply | src/quantum/finance/_expression_eager.py:243-350 | operations treat sources as labels: dropping the made-up ones before or after is the same |
| LazyShape.RegisterReady | src/quantum/finance/_expression_lazy.py:35-54 | a made-up variable is new, is admitted, and evaluates to the state it stands for |
| LazyShape.EvalStable | src/quantum/finance/_expression_lazy.py:56-114 | variables made up later change no value of an expression resolved earlier |
| LazyShape.ResolveShape | src/quantum/finance/_expression_lazy.py:56-114 | removing branches keeps typing and the root's signature, and nothing grows in size or depth |
| LazyTheorems.Refines | src/quantum/finance/_expression_lazy.py:56-114 | removing branches fails exactly when a condition does, with its error; otherwise evaluating what is left gives what short-circuit evaluation gives: the same error, or the same value and sources |
| LazyResults.LazyExact | src/quantum/finance/_expression_lazy.py:13-131 | the lazy evaluator is the conditions first, in order, and then short-circuit evaluation, down to the error code of every failure |
| LazyResults.LazyIsShortCircuit | src/quantum/finance/_expression_lazy.py:13-131 | the lazy evaluator succeeds exactly when short-circuit evaluation does, with the same state, value, signature, reason and sources; the codes of a failure agree exactly when no condition fails or the first that does has that code |
| LazyExample.CodesMayDiffer | src/quantum/finance/_expression_lazy.py:74-114 | an argument and a later condition that both fail are reported in the other order |
| LazyResults.EveryVariableIsChecked | src/quantum/finance/_expression_eager.py:145-152 | a variable that is undeclared or outside the policy's limits is refused even when no selected branch uses it |
| LazyResults.EagerValueIsLazyValue | src/quantum/finance/_expression_lazy.py:13-131 | where the eager evaluator gives a value the lazy one gives the same value with no source added |
| LazyResults.UnselectedBranchesDoNotMatter | src/quantum/finance/_expression_lazy.py:109-114 | replacing unselected branches by any accepted ones changes nothing in the result, error codes included |
| LazyResults.LazyTypeSoundness | src/quantum/finance/_expression_lazy.py:13-131 | type soundness carries over to the lazy evaluator |
| LazyExample.LazyGivesMore | src/quantum/finance/_expression_lazy.py:19-24 | a choice whose other branch divides by zero has a value lazily and none eagerly |
| Precision.NormalisedSize | src/quantum/finance/_rounding.py:41-57 | a normalised number needs no more digits than its text had, even when it carries |
| Precision.EvalExact | src/quantum/finance/_expression_eager.py:155-350 | every value met in a division-free expression has at most as many digits as its inputs together, so a context with that many digits rounds nothing |
| Precision.ContextIsExact | src/quantum/finance/_rounding.py:163-187 | in the decimal context of the rules a division-free expression evaluates as with exact arithmetic |
| ExpressionPrograms.AstChecker.Walk | src/quantum/finance/_expression_validation.py:65-150 | the recursive checker that bumps a counter computes what the checking function says |
| ExpressionPrograms.AddUp | src/quantum/finance/_expression_eager.py:254-259 | the ADD loop computes the sum from the left, rounding each step |
| ExpressionPrograms.EagerEvaluator.Walk | src/quantum/finance/_expression_eager.py:155-350 | the recursive evaluator that bumps a counter computes what the evaluation function says, operator by operator as in `OperatorLaws` |
| ExpressionPrograms.LazyEvaluator.ResolveNode | src/quantum/finance/_expression_lazy.py:56-114 | the resolver that updates variables, dependencies, sources and a counter reaches the state the function says |
| ExpressionPrograms.EvaluateExpression | src/quantum/finance/_expression_lazy.py:13-131 | the lazy entry point, checker and resolver together, returns what the lazy semantics says |
| Rules.CountGroups | src/quantum/finance/_rules.py:266-271 | counting exclusivity groups finds an overlap exactly when two rules share a group |
| Rules.BestDecides | src/quantum/finance/_rules.py:281-289 | one best row is the rule strictly above all others; several mean that no rule is |
| Rules.ResolveRule | src/quantum/finance/_rules.py:200-302 | screening, counting, sorting and marking return the declared resolution |
| RuleTheorems.EligibleExact | src/quantum/finance/_rules.py:212-244 | a rule applies exactly when organization, approval, validity window, scenario and every named scope field admit the context |
| RuleTheorems.AboveExact | src/quantum/finance/_rules.py:237-243 | preference goes by the scope fields named, then priority, then the later start, then the later version; `RulePreference.AboveByFields` says it of the fields themselves |
| RulePreference.AboveByFields | src/quantum/finance/_rules.py:237-243 | at the first of product, product group, account, marketplace, profile and scenario that one rule names and the other does not, the rule that names it is above; if they name the same fields, priority, start and version decide |
| RulePreference.PreferredIsSelected | src/quantum/finance/_rules.py:237-289 | without a shared exclusivity group, an applicable rule that is preferred to all other applicable ones by those fields is the one that the resolution selects |
| RulePreference.EndingExact | src/quantum/finance/_rules.py:261-289 | which rules lead to which state and diagnostic, from the fields of rules and context |
| RulePreference.AppliesExact | src/quantum/finance/_rules.py:212-236 | when a rule applies, condition by condition |
| RulePreference.ReasonsExact | src/quantum/finance/_rules.py:212-236 | a rule is listed with exactly the reasons for exclusion that it has |
| RulePreference.ListedInOrder | src/quantum/finance/_rules.py:204-207 | rules are listed by identifier, then version, then digest |
| RulePreference.ListedAs | src/quantum/finance/_rules.py:244-259 | what a resolution lists of each rule: eligibility, selection, reasons, ordering |
| RuleTheorems.PermutationDoesNotMatter | src/quantum/finance/_rules.py:200-302 | the resolution, trace included, is the same for every order of the rules |
| RuleTheorems.ResolutionExact | src/quantum/finance/_rules.py:261-289 | VALID exactly when no exclusivity group has two rules that apply and one rule is strictly greatest by specificity, priority, start and version; that rule and no other is selected |
| RuleTheorems.IneligibleRulesDoNotMatter | src/quantum/finance/_rules.py:212-289 | rules that do not apply change neither state nor selection |
| RuleTheorems.DropIneligible | src/quantum/finance/_rules.py:212-289 | dropping one rule that does not apply changes neither state nor selection |
| TraceCache.TouchKeepsNewest | src/quantum/finance/_rules_hardening.py:47-68 | moving to the end and dropping the oldest keeps exactly the most recently touched traces |
| TraceCache.RecentIsByLastTouch | src/quantum/finance/_rules_hardening.py:47-68 | the recency list holds every touched trace once, in the order of last touch |
| TraceRecency.HeldExact | src/quantum/finance/_rules_hardening.py:47-68 | a trace is held exactly while fewer than 4096 other traces have been touched since it was touched last |
| TraceRecency.OnlyTouchedAreHeld | src/quantum/finance/_rules_hardening.py:47-68 | a trace that was never touched is not held |
| TraceRecency.EnvelopeAnswer | src/quantum/finance/_rules_hardening.py:71-117 | an envelope is refused with the code of the first condition that fails |
| TraceCache.EnvelopeAccepts | src/quantum/finance/_rules_hardening.py:71-117 | what resolution returns always passes the envelope check |
| TraceCache.TraceDeterminesRules | src/quantum/finance/_rules_hardening.py:147-154 | a trace belongs to one rule set and one context |
| TraceCache.GenuineSelection | src/quantum/finance/_rules_hardening.py:120-135 | the selected rule of a genuine resolution is found among its rules, is the one resolution picked, and is approved |
| TraceCache.TrustedRules.Register | src/quantum/finance/_rules_hardening.py:47-55 | registering touches the trace, stores it, and keeps the cache at the 4096 traces touched last |
| TraceCache.TrustedRules.Trusted | src/quantum/finance/_rules_hardening.py:58-68 | a known trace is touched; the answer is yes exactly for the stored resolution with the stored rules |
| TraceCache.TrustedRules.ResolveRule | src/quantum/finance/_rules_hardening.py:147-154 | resolving returns the declared resolution and makes it trusted |
| TraceCache.TrustedRules.Pass | src/quantum/finance/_rules_hardening.py:157-181 | evaluation is let through exactly for a resolution made earlier from the same rules and still among the 4096 traces touched last; a rule that is not approved is never reached |
| Kernel.StripPrefix | src/quantum/finance/_calculation_core.py:21-33 | the primary reason is the reason without any whole number of leading state prefixes, and nothing else is removed |
| Kernel.CopiesStripped | src/quantum/finance/_calculation_core.py:21-33 | any number of prefixes is stripped, so that a reason made of prefixes alone leaves nothing, which the calculation refuses |
| Kernel.SumMoney | src/quantum/finance/_metrics.py:51-63 | the accumulation returns the signed total of VALID money, the propagated state, or the mismatch with the sources up to it |
| Kernel.CalculateOtherExpense | src/quantum/finance/_calculation_expenses.py:8-29 | the loop over components returns the sum, the first refusal, or the first mismatch |
| KernelOutcomes.RequestLaw | src/quantum/finance/_runtime_core.py:149-165 | only the fourteen inputs, at most 64 expenses and a currency of three capitals are taken, and the code otherwise |
| KernelOutcomes.InputLaw | src/quantum/finance/_metrics.py:40-48 | an input is used as it is, or the figure says which input is missing, of another kind or in another currency |
| KernelOutcomes.NetUnitsLaw | src/quantum/finance/_calculation_core.py:71-89 | net units plus returned units are the units sold, if no more came back than went out |
| KernelOutcomes.CostUnitsLaw | src/quantum/finance/_calculation_core.py:91-126 | units whose cost was spent, with the resalable ones, are the units sold |
| KernelOutcomes.CostUnitsReportLaw | src/quantum/finance/_calculation_core.py:21-33 | values that are not VALID are reported without the words that reporting puts in front |
| KernelOutcomes.ProductCostLaw | src/quantum/finance/_calculation_core.py:128-170 | cost is the number of units times the cost of one, or says why there is none |
| KernelOutcomes.CompensationLaw | src/quantum/finance/_calculation_profit.py:10-51 | compensation that no unit stands for, or that is negative, blocks the income; any other is taken as it is |
| KernelOutcomes.IncomeLaw | src/quantum/finance/_calculation_profit.py:64-117 | income is sales less discounts, with subsidies and compensation, less commission, logistics both ways, storage, advertising and fines |
| KernelOutcomes.TaxLaw | src/quantum/finance/_calculation_profit.py:118-171 | tax is the rate times its base, if that is there and both are of the right kind, and says otherwise why not |
| KernelOutcomes.ProfitLaw | src/quantum/finance/_calculation_profit.py:172-175 | profit is the income less cost, other expense and tax |
| KernelOutcomes.PerUnitLaw | src/quantum/finance/_calculation_profit.py:176-205 | profit per unit times the units is the profit; there is none for no units or fewer |
| KernelOutcomes.ComponentLaw | src/quantum/finance/_calculation_expenses.py:19-28 | an expense in money counts once, one per item counts for every net unit |
| KernelOutcomes.OtherExpenseLaw | src/quantum/finance/_calculation_expenses.py:8-29 | the other expense is the sum over its components; the first that is not fine decides otherwise |
| KernelOutcomes.MoneySumLaw | src/quantum/finance/_metrics.py:51-63 | a sum needs every term VALID and in money of the currency; the first other one decides what is said, with the sources up to it |
| KernelOutcomes.TotalFromFront | src/quantum/finance/_metrics.py:51-63 | a total is its first term, with its sign, and the total of the rest |
| KernelTheorems.ValidProfitNeedsEverything | src/quantum/finance/_calculation_profit.py:54-214 | a VALID net profit means that all fourteen inputs, the unit cost, the tax rate and every expense are VALID and well signed |
| KernelTheorems.ReportedProfitIsClose | src/quantum/finance/_metrics.py:22-37 | the reported profit is a whole number of units in the last place away from reported income less cost, other expense and tax: at most two in the HALF modes, four otherwise |
| KernelOracle.CompensationChecksAgree | src/quantum/finance/_runtime_core.py:51-91 | the check of a compensation before rounding refuses exactly what the reference refuses |
| KernelOracle.KernelMeetsReference | src/quantum/finance/_runtime_core.py:169-287 | on complete requests the reference accepts, all eight metrics are the reference's for the normalised numbers |
| KernelLimits.ComputedExactly | src/quantum/finance/_runtime_core.py:151-201 | a complete request that the reference accepts is computed exactly when currency, inputs, components, digits and rounding points are within the limits that a caller can look up |
| KernelLimits.WithinPolicyMeetsReference | src/quantum/finance/oracle.py:34-110 | when moreover fractions fit the calculation scale all eight metrics equal the reference's |
| KernelOracle.ProfitValidIffReferenceAccepts | src/quantum/finance/oracle.py:45-59 | on complete requests the kernel reports a VALID profit exactly when the reference does not refuse |
| KernelContext.RawInContext | src/quantum/finance/_runtime_core.py:169-201 | with every arithmetic result rounded by the context of the request, the metrics before the final rounding and every refusal are the exact ones; only the quotient of profit and units is rounded |
| KernelContext.CalculatedInContext | src/quantum/finance/_runtime_core.py:169-287 | the reported metrics too, other than the one per unit, are those of exact arithmetic |
| KernelContext.PerUnitIsClose | src/quantum/finance/_calculation_profit.py:179-205 | profit per unit, whose quotient the context rounds before the final rounding, is off by one unit in the last place at most, for every context that keeps the order of numbers |
| KernelContext.ContextMeetsReference | src/quantum/finance/oracle.py:34-110 | in its context the kernel meets the reference in the seven metrics that are not divided |
| KernelContext.ContextProfitIff | src/quantum/finance/oracle.py:45-59 | in its context the kernel reports a VALID profit exactly when the reference does not refuse |
| KernelExample.ExampleIsCalculated | src/quantum/finance/_runtime_core.py:111-287 | complete requests that kernel and reference accept exist, for every policy that admits one digit |
| AdmissionModel.MatchIsExact | src/quantum/ingestion/_xlsx_inspection_v3.py:69-136 | a schema is matched exactly when it is the only one of the kind whose figures all agree and whose bounds are all kept, and no prohibited header is present; otherwise there is a diagnostic |
| AdmissionModel.MatchSchemas | src/quantum/ingestion/_xlsx_inspection_v3.py:69-136 | the schema loop computes that outcome |
| AdmissionTheorems.ReachableInv | src/quantum/ingestion/_admission_registry_base_v2.py:59-199 | in every run each history starts DECLARED, follows the allowed transitions with QUARANTINED repeatable, never goes back in time and ends in the current state; VALIDATED and ADMITTED imply a matched inspection |
| AdmissionTheorems.NothingIsShared | src/quantum/ingestion/_admission_registry_base_v2.py:121-199 | two datasets of a tenant never share an original digest, a source identity, a validated workbook or an admitting evidence |
| AdmissionTheorems.HistoriesGrow | src/quantum/ingestion/_admission_registry_base_v2.py:59-111 | a step only adds to its tenant's histories and touches no other tenant |
| AdmissionTheorems.ExamineExact | src/quantum/ingestion/_admission_validation_v2.py:55-124 | an inspection rejects exactly what is not the declared file or repeats a workbook, and validates exactly what is recognised with the announced row count |
| AdmissionTheorems.AdmitExact | src/quantum/ingestion/_admission_finalize_v2.py:7-34 | a dataset is admitted exactly when it is validated, retained, and both evidences are complete, independent, fresh, unused and describe it |
| AdmissionRefusals.TransitionsExact | src/quantum/ingestion/_admission_registry_base_v2.py:60-87 | the transitions of a record's life |
| AdmissionRefusals.DeclareAnswer | src/quantum/ingestion/_admission_registry_base_v2.py:135-199 | a declaration is refused with the code of the first condition that fails |
| AdmissionRefusals.DeclareStores | src/quantum/ingestion/_admission_registry_base_v2.py:135-199 | a first declaration starts a record and claims digest and source; a repeated one changes nothing |
| AdmissionRefusals.InspectAnswer | src/quantum/ingestion/_admission_validation_v2.py:32-53 | an inspection is refused, and nothing written, with the code of the first condition that fails |
| AdmissionRefusals.InspectStores | src/quantum/ingestion/_admission_validation_v2.py:55-124 | an accepted inspection writes the record, and claims the workbook of a file that was not rejected |
| AdmissionRefusals.AdmitAnswer | src/quantum/ingestion/_admission_evidence_checks_v2.py:15-92 | an admission is refused with the code of the first condition that fails, over record, both evidences and their times, and made if all hold |
| AdmissionRefusals.AdmitStores | src/quantum/ingestion/_admission_finalize_v2.py:7-34 | an admission writes stage, decision, evidences and storage key, and claims both evidences |
| AdmissionRefusals.RevokeAnswer | src/quantum/ingestion/_admission_access_v2.py:18-42 | a revocation is refused with the code of the first condition that fails |
| AdmissionRefusals.RevokeStores | src/quantum/ingestion/_admission_access_v2.py:18-42 | a revocation writes the new stage and one decision, and nothing else |
| AdmissionRefusals.ReadAnswer | src/quantum/ingestion/_admission_access_v2.py:44-65 | reading is refused with the code of the first condition that fails, and otherwise gives the stored record |
| AdmissionRefusals.MismatchExact | src/quantum/ingestion/_xlsx_inspection_v3.py:80-110 | which figure of a workbook disagrees with a schema under which code |
| AdmissionRefusals.DiagnosticsExact | src/quantum/ingestion/_xlsx_inspection_v3.py:69-136 | what is listed when no schema is matched: every disagreement, and what the registered schemas come to |
| AdmissionAccess.AccessExact | src/quantum/ingestion/_admission_access_v2.py:44-65 | in every run a tenant reads a dataset exactly when one of its own accepted admissions of it is followed by no accepted revocation and the time lies between that admission and the retention deadline |
| AdmissionAccess.AccessIsEarned | src/quantum/ingestion/_admission_access_v2.py:44-65 | what is read is the record that admission returned, untouched, on complete evidence by verifiers other than the uploader that describes it, dated between its validation and its admission, and never revoked |
| Admission.RealDatasetAdmissionRegistry.Declare | src/quantum/ingestion/_admission_registry_base_v2.py:135-199 | declaring updates three dictionaries as the rule says, keeps the invariant, and changes nothing on refusal |
| Admission.RealDatasetAdmissionRegistry.InspectAndValidate | src/quantum/ingestion/_admission_validation_v2.py:19-124 | inspection steps the record, claims the workbook digest as the rule says, and keeps the invariant |
| Admission.RealDatasetAdmissionRegistry.RejectLocked | src/quantum/ingestion/_admission_validation_v2.py:126-144 | a quarantined record can always be rejected, and is stored |
| Admission.RealDatasetAdmissionRegistry.ClaimWorkbookDigest | src/quantum/ingestion/_admission_registry_base_v2.py:121-133 | a digest is claimed exactly when it is free or the dataset's own |
| Admission.RealDatasetAdmissionRegistry.Admit | src/quantum/ingestion/admission_v2.py:45-79 | admission writes the record and both evidence owners together, or nothing |
| Admission.RealDatasetAdmissionRegistry.Revoke | src/quantum/ingestion/_admission_access_v2.py:18-42 | only an admitted dataset is revoked, and nothing else changes |
| ZipCoverage.LittleEndianExact | src/quantum/ingestion/_xlsx_zip_coverage.py:19-28 | bytes of a width spell exactly one number, and that number spells them |
| ZipCoverage.EndRecordOffset | src/quantum/ingestion/_xlsx_zip_coverage.py:31-50 | the backward scan succeeds exactly when the payload ends with an end record without comment |
| ZipCoverage.ValidateCentralDirectory | src/quantum/ingestion/_xlsx_zip_coverage.py:53-75 | the loop accepts exactly when comment-free entries fill the directory up to the end record |
| ZipCoverage.DescriptorExact | src/quantum/ingestion/_xlsx_zip_coverage.py:78-108 | reading a descriptor back and comparing is comparing with the bytes a writer would put |
| ZipCoverage.DescriptorMatches | src/quantum/ingestion/_xlsx_zip_coverage.py:78-108 | accepted exactly when the bytes are one of the four descriptor layouts of the member |
| ZipCoverage.LocalMatches | src/quantum/ingestion/_xlsx_zip_coverage.py:128-170 | a local record is accepted exactly when header, name, extra field, data and descriptor fill its bytes |
| ZipCoverage.ValidateLocalRecords | src/quantum/ingestion/_xlsx_zip_coverage.py:119-172 | accepted exactly when the records, sorted by offset, follow one another from byte 0 to the directory |
| ZipCoverage.ValidateZipRecordCoverage | src/quantum/ingestion/_xlsx_zip_coverage.py:175-219 | accepted exactly when local records, directory and end record tile the payload; refused as invalid exactly when a payload that starts with a local header is no archive, and otherwise as a polyglot |
| ZipWriter.WrittenLocalFills | src/quantum/ingestion/_xlsx_zip_coverage.py:128-170 | the local record a plain writer produces, with or without data descriptor, passes the check of its place |
| ZipWriter.WrittenArchiveIsTiled | src/quantum/ingestion/_xlsx_zip_coverage.py:175-219 | every archive a plain writer produces, with numbers below the reserved values, is accepted |
| ZipWriter.WrittenArchiveReadsBack | src/quantum/ingestion/_xlsx_zip_coverage.py:175-219 | the directory that the bytes of such an archive tell, field by field, is the one that was written, and with it the archive is accepted |
| ZipCoverage.TiledIsAChain | src/quantum/ingestion/_xlsx_zip_coverage.py:119-207 | the records of an accepted payload follow one another from the first byte to the last |
| ZipCoverage.EveryByteInOneRecord | src/quantum/ingestion/_xlsx_zip_coverage.py:175-219 | no byte of an accepted payload is outside the records or in two of them |
| ZipGrammar.TiledExact | src/quantum/ingestion/_xlsx_zip_coverage.py:175-219 | the coverage check accepts exactly the byte strings that are an archive by the format: local records, directory entries and end record, field by field, one after the other |
| ZipGrammar.LocalExact | src/quantum/ingestion/_xlsx_zip_coverage.py:128-170 | the bytes between two places are accepted as the record of a member exactly when they are one |
| ZipGrammar.EntryExact | src/quantum/ingestion/_xlsx_zip_coverage.py:53-75 | an entry of some size stands at a place exactly when those bytes are one |
| ZipGrammar.EndExact | src/quantum/ingestion/_xlsx_zip_coverage.py:31-50 | the payload ends properly exactly when its last 22 bytes are an end record that places the directory there |
| ZipGrammar.BytesRead | src/quantum/ingestion/_xlsx_zip_coverage.py:19-28 | numbers are read least significant byte first |

## Left out

- The ambient decimal context in which the ledger sums amounts: amounts are added exactly.
- CSV, JSON and JSONL parsing and export, the normalisation of CSV rows into candidates, and the file stores behind the proof pipeline.
- Field-by-field shape checks of dictionaries, time stamps, identifiers and policies, and the errors they raise; time stamps are instants, dataset identifiers are already in normal form.
- Regular expressions for variable names, and names with the reserved prefix.
- The listing getters of the ledger (`has_event`, `get_event`, `get_source_row`, `list_events`, `list_source_rows`): they only read.
- The order in which the two evidence layers list their diagnoses: which ones are listed is exact, each once.
- `verify_metric_snapshot` in both evidence layers: field-by-field checks of one document.
- The formulas behind a rule once evaluation is let through: a fixed value or one product, rounded as `Rounding` says and typed as `Values` says. The digit limit on integer literals in `_expression_limits.py` is one of the policy's own limits and is not modelled.
- XML, relationship, formula and worksheet checks of an inspection: opening an upload is a parameter with an outcome.
- Threads: a lock-protected method is one step.
