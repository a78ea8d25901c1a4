# Verification of the evidence, recovery and rollback protocols

This project models the parts of the repository that act as proof-carrying protocols and proves what they keep. A guarded
INSERT or UPDATE of the migrations is a statement that is either accepted or leaves the tables as they are; deferred
constraint triggers run at COMMIT. `Accepts` is the conjunction of triggers, CHECK and UNIQUE constraints and foreign keys
that decide a statement, `After` the state it leaves. The same guards exist a second time as methods of classes whose
fields are the tables; each method is proved to accept and to change exactly what the statement model says, so what is
proved about runs holds of every such object.

| part | files |
|---|---|
| Alias recovery, access epochs and role keys: a write-ahead control log, a nested key log, a monotone floor, a freeze gate and atomic receipts | `ActionLog`, `RecoveryTables`, `AliasSafety`, `ControlSafety`, `EventSafety`, `RoleKeySafety`, `EpochSafety`, `EpochProofs`, `EpochClaims`, `RecoveryStore` |
| Evaluation metrics: span and box overlap, rank scores, percentiles | `SpanIou`, `BoxIou`, `RankMetrics`, `Percentile`, `Counting` |
| Extractive evaluation and promotion: observations, case results, recomputed aggregates, the promotion gate | `EvaluationCase`, `EvaluationScores`, `EvaluationTables`, `EvaluationAggregates`, `EvaluationSafety`, `EvaluationRows`, `EvaluationStore` |
| Canonical JSON text and a parser that undoes it | `CanonicalJson`, `JsonParser` |
| Generative runs and attempts, cancellation, the verifier loop | `GenerativeTables`, `CancellationSafety`, `GenerativeVerifier`, `GenerativeSafety`, `GenerativeMeasures`, `GenerativeStore` |
| Both evaluations in one database, with acceptances and the whole promotion gate | `PromotionRuns` |
| Configuration versions and the components they pin | `FrozenComponents` |
| Rollback of access-list and label changes | `AccessEntries`, `SecurityScope`, `RollbackSafety` |
| Renumbering of issues | `IssueKeys`, `Renumbering` |

Reading notes:

- The verifier of generative candidates is modelled as it stands after all migrations: 0057 with the nested expected status
  of 0058 and the raw-proof call of 0059. It looks evidence ids up in the case's list of authorized source ids, as the code
  does.
- The discount `ln 2 / ln(rank + 1)` enters as any positive, strictly decreasing weight, numbers as exact reals. Supplied
  case scalars are accepted within the tolerances of the code, so [0, 1] is proved of derived values; a CHECK constraint
  bounds the stored aggregates.
- Digests and text normalization are parameters. A digest is never assumed to be more than equal on equal inputs.
- The native calls of the rollback may each fail, and other programs may edit lists and labels between any two of them, so
  also between the read and the write of one grant or one undo action; both are nondeterministic choices. The run itself is
  disabled in the program (`scripts/windows-isolation/Contract.cs:9-14`); the rollback logic is what is modelled.
- In `EvaluationTables` the outcome of the generative branch is an input of the statement; `PromotionRuns` determines it from
  the stored acceptances and the verifier.
- Numbers in jsonb that differ only in their scale, such as 1.0 and 1.00, are equal to the database but have different
  canonical texts. Numbers are kept as texts here, so equality up to member order tells them apart.

## Model

| member | source | states |
|---|---|---|
| AliasSafety.ClosedExactlyWithReceipt | backend/alembic/versions/0061_alias_recovery.py:170-196 | In every committed state an operation is closed as not dispatched or recovered exactly when one receipt of it exists, and that receipt repeats its cluster, result and closing time; every other operation has none |
| AliasSafety.ReleaseOnlyOnEvidence | backend/alembic/versions/0061_alias_recovery.py:97-133 | A committed gate that still names a claim but is no longer frozen has its operation closed in the same cluster, as confirmed or with the one receipt that repeats request, actor, snapshot and revision of the claim |
| AliasSafety.EveryReleaseOnEvidence | backend/alembic/versions/0061_alias_recovery.py:97-133 | Every statement that took a gate out of the frozen state, also one followed by a new freeze in the same transaction, let a claim go for which the committed state holds that evidence |
| AliasSafety.RevisionCountsFreezes | backend/alembic/versions/0061_alias_recovery.py:128-131 | In every state of every run the revision of a gate is the number of freezes of that gate among the statements that took effect |
| AliasSafety.DispatchedNeverUndispatched | backend/alembic/versions/0061_alias_recovery.py:81-92 | An operation that a committed state shows as dispatching is closed as not dispatched in no later state |
| AliasSafety.OperationsOnlySettle | backend/alembic/versions/0061_alias_recovery.py:81-92 | After a commit an operation keeps what it is about, a closed one its whole row, and a phase changes only from reserved to dispatching, in every later state |
| AliasSafety.RequestClaimsOneGate | backend/alembic/versions/0061_alias_recovery.py:32-32 | In every state of every run one recovery request claims at most one gate |
| ActionLog.BlockStart | backend/alembic/versions/0062_rag_access_epoch.py:242-264 | In a log built by the two append rules every entry belongs to a block opened by its own pending entry, at most two places before it |
| ActionLog.NothingUnsettledIsFinished | backend/alembic/versions/0062_rag_access_epoch.py:247-252 | The guard that looks for an unsettled preceding action is enough: a log that passes it ends in a finished block |
| ActionLog.RecordOutcome | backend/alembic/versions/0062_rag_access_epoch.py:253-264 | The settlement guard only ever extends the unfinished block at the end of the log |
| ActionLog.BlockLogLength | backend/alembic/versions/0062_rag_access_epoch.py:242-264 | A log with n settled actions has between 2n and 3n + 2 entries |
| ControlSafety.SameCommandSameAction | backend/alembic/versions/0062_rag_access_epoch.py:242-246 | Two events of one command in one execution belong to one action, and the earlier one is not its settlement |
| ControlSafety.ControlLogIsOrderedBlocks | backend/alembic/versions/0062_rag_access_epoch.py:224-269 | In every reachable state the control log is a sequence of blocks pending, unknown at most once, settled, with at most one unfinished block at the end; it is numbered from 1, its settled commands are a prefix of the fixed order of 12, and it has at most 36 events |
| ControlSafety.PhaseMatchesLog | backend/alembic/versions/0062_rag_access_epoch.py:318-377 | In every reachable state an epoch past its first phase has exactly one execution; its phase needs at least 0, 2, 3, 11, 12, 12 settled commands; verified and later mean exactly 12; and 8 or more settled commands mean the phase has reached old_retired |
| EventSafety.EveryEventIsBound | backend/alembic/versions/0062_rag_access_epoch.py:237-264 | In every reachable state every event of both logs belongs to the generation of its execution and carries the next number; a pending event repeats that number as its action number and has no facts, any other has facts and follows the pending event of its own action and binding, not before it in time |
| EventSafety.ActionsApart | backend/alembic/versions/0062_rag_access_epoch.py:71-71 | In every reachable state no action, of commands or of keys, has events in two executions |
| RoleKeySafety.LatestIssueIsLast | backend/alembic/versions/0064_rag_epoch_key_events.py:131-132 | The latest settled issue of a role is the last one in the log, and there is none exactly when the lookup finds none |
| RoleKeySafety.AtMostOneUsableKey | backend/alembic/versions/0064_rag_epoch_key_events.py:111-152 | In every reachable state a role has at most one usable key: after it no issue of the role is even opened, every issue of the role settled before was inaccessible and its key is invalidated, and the usable key never is |
| RoleKeySafety.KeysHaveOneParent | backend/alembic/versions/0064_rag_epoch_key_events.py:100-105 | Once issue_role_key is settled, every key event of the execution hangs off its one action |
| RoleKeySafety.GroupIsLive | backend/alembic/versions/0064_rag_epoch_key_events.py:43-72 | The group computed from the key log names three distinct keys, for each role one that was issued as usable under the issuance and the permissions the group names and never invalidated; every other key ever issued was inaccessible and is invalidated by exactly its key id |
| RoleKeySafety.SettledKeysAreLive | backend/alembic/versions/0064_rag_epoch_key_events.py:197-208 | In every reachable state, committed or not, a settled issue_role_key names that live group |
| RoleKeySafety.NoKeyEventFollows | backend/alembic/versions/0064_rag_epoch_key_events.py:100-105 | Once issue_role_key is settled no key event of the execution is accepted any more |
| EpochSafety.CheckedIsFloor | backend/alembic/versions/0062_rag_access_epoch.py:432-441 | A verified epoch that passes its commit check is the one its cluster's floor row points at, with the same ordinal, store and secured identity |
| EpochSafety.CommitRaisesOrdinal | backend/alembic/versions/0062_rag_access_epoch.py:394-448 | A commit that verifies an epoch leaves its ordinal above that of every epoch of the cluster verified before, although inserting an epoch never looks at the floor |
| EpochSafety.OrdinalsStrictlyIncrease | backend/alembic/versions/0062_rag_access_epoch.py:394-448 | Along every run, of two epochs of one cluster the one that is verified later in committed states has the larger ordinal |
| EpochSafety.OneVerificationPerCommit | backend/alembic/versions/0062_rag_access_epoch.py:43-45 | One commit verifies at most one epoch of a cluster |
| EpochSafety.ReceiptedExactlyWithReceipt | backend/alembic/versions/0062_rag_access_epoch.py:442-446 | In every committed state an epoch is receipted exactly when one receipt carries it, and that receipt repeats its verified proof and time |
| EpochSafety.EpochReceiptVouches | backend/alembic/versions/0062_rag_access_epoch.py:420-448 | A committed epoch receipt vouches for all three logs at once: operation closed as recovered, epoch receipted, all twelve commands settled, and the recorded role keys the live ones |
| EpochProofs.VerifiedIsProven | backend/alembic/versions/0062_rag_access_epoch.py:335-377 | In every reachable state an epoch has an ordinal above the floor it was created on and the cluster and store of its operation; once verified its proof repeats the claim, the execution and the original server of the epoch, and the settled stop and retirement of that server, at the recorded numbers of the control log, come before the start and the verification of a server with another container and the same stable node |
| EpochProofs.ReceiptIsProven | backend/alembic/versions/0062_rag_access_epoch.py:420-448 | A committed receipt of an epoch carries exactly that proof |
| EpochProofs.PhasesInOrder | backend/alembic/versions/0062_rag_access_epoch.py:318-327 | A phase is entered only from the one before it, and nothing else of the row changes without it |
| EpochClaims.HeldUntilClosed | backend/alembic/versions/0062_rag_access_epoch.py:285-306 | In every reachable state the gate of the cluster of an epoch is frozen under the claim and the revision the epoch was created for, until its operation is closed |
| EpochClaims.KeyEventUnderClaim | backend/alembic/versions/0064_rag_epoch_key_events.py:87-99 | In every reachable state a key event is accepted only while the operation of its epoch is open and its actor an owner, so while the gate is frozen under the claim of the epoch |
| EpochClaims.EveryReceiptIsSound | backend/alembic/versions/0062_rag_access_epoch.py:187-223 | In every reachable state a receipt of the old schema has the proof kind of its result, and one of the new schema recovers its operation by the proof of an epoch and execution created for the same claim |
| RecoveryStore.Database.UpdateOperation | backend/alembic/versions/0061_alias_recovery.py:76-93 | The operation guard, in place: accepts exactly the allowed transitions and changes exactly that row |
| RecoveryStore.Database.UpdateGate | backend/alembic/versions/0061_alias_recovery.py:97-133 | The gate guard, in place, with its freeze and release branches |
| RecoveryStore.Database.InsertReceipt | backend/alembic/versions/0061_alias_recovery.py:137-166 | The receipt guard in its current form for both schemas, in place |
| RecoveryStore.Database.PutFloor | backend/alembic/versions/0062_rag_access_epoch.py:394-416 | The floor guard, in place: floors only move to a larger ordinal of the same store |
| RecoveryStore.Database.Commit | backend/alembic/versions/0062_rag_access_epoch.py:449-460 | COMMIT runs the deferred checks of every touched operation and epoch and keeps or undoes the whole transaction |
| SpanIou.SweepIsPositionCount | backend/alembic/versions/0010_rag_evaluation.py:682-732 | The endpoint sweep counts the integer positions covered by both span lists and by either, for overlapping and nested spans too |
| SpanIou.IouIsRatio | backend/alembic/versions/0010_rag_evaluation.py:682-732 | The span overlap exists exactly when some position is covered, and times the number of positions in either list it is the number of positions in both |
| SpanIou.IouBounds | backend/alembic/versions/0010_rag_evaluation.py:682-732 | The span overlap is null exactly when neither list covers anything; otherwise it lies in [0, 1], is 1 exactly for equal coverage and 0 exactly for disjoint coverage |
| SpanIou.IouSymmetric | backend/alembic/versions/0010_rag_evaluation.py:682-732 | The span overlap does not depend on which list is called expected |
| SpanIou.NullOnlyWhenEmpty | backend/alembic/versions/0010_rag_evaluation.py:816-833 | For stored spans the overlap is null only when both lists are empty |
| BoxIou.AnyGridIsArea | backend/alembic/versions/0010_rag_evaluation.py:734-797 | On any grid that contains all box edges the cells whose midpoint lies in both lists, or in either, weigh the area of the intersection and of the union of the covered regions, as inclusion-exclusion defines it |
| BoxIou.CompressionIsArea | backend/alembic/versions/0010_rag_evaluation.py:734-797 | Coordinate compression computes those areas for any two lists of boxes with real coordinates |
| BoxIou.CompressionCountsUnitCells | backend/alembic/versions/0010_rag_evaluation.py:734-797 | For integer boxes the two sums are the numbers of unit cells in both and in either list |
| BoxIou.IouIsRatio | backend/alembic/versions/0010_rag_evaluation.py:734-797 | The box overlap exists exactly when the covered area is not 0, and times the area covered by either list it is the area covered by both |
| BoxIou.IouCountsUnitCells | backend/alembic/versions/0010_rag_evaluation.py:734-797 | For integer boxes the overlap times the number of unit cells in either list is the number of unit cells in both |
| BoxIou.IouBounds | backend/alembic/versions/0010_rag_evaluation.py:734-797 | The box overlap, when there is one, lies in [0, 1] |
| BoxIou.IouSymmetric | backend/alembic/versions/0010_rag_evaluation.py:734-797 | The box overlap does not depend on which list is called expected |
| BoxIou.NullOnlyWhenEmpty | backend/alembic/versions/0010_rag_evaluation.py:835-858 | For stored boxes the overlap is null exactly when both lists are empty |
| BoxIou.OneOnlyForEqualCoverage | backend/alembic/versions/0010_rag_evaluation.py:734-797 | The box overlap is 1 exactly when both lists cover the same points |
| BoxIou.ZeroOnlyForDisjointCoverage | backend/alembic/versions/0010_rag_evaluation.py:734-797 | The box overlap is 0 exactly when no point is covered by both lists |
| RankMetrics.DedupIdentity | backend/alembic/versions/0010_rag_evaluation.py:1399-1415 | Deduplication and renumbering change nothing exactly when no id repeats |
| RankMetrics.DedupIsRowNumber | backend/alembic/versions/0010_rag_evaluation.py:1399-1415 | The renumbered rank of an id is one more than the number of different ids before its first place |
| RankMetrics.ScoresMeasure | backend/alembic/versions/0010_rag_evaluation.py:1416-1436 | Recall times the number of expected ids is the number of expected ids among the first k different ones; the reciprocal rank times the least relevant rank is 1, and 0 without one; nDCG times the weights of the first min(expected, k) ranks is the sum of the weights of the relevant ranks up to k |
| RankMetrics.NdcgBounds | backend/alembic/versions/0010_rag_evaluation.py:1416-1436 | For every positive, strictly decreasing rank weight the derived nDCG lies in [0, 1], and it is 1 exactly when the first min(expected, k) ranks are all relevant |
| RankMetrics.RecallBounds | backend/alembic/versions/0010_rag_evaluation.py:1416-1434 | The derived recall lies in [0, 1], and it is 1 exactly when the expected ids are distinct and all among the first k different ids |
| RankMetrics.ReciprocalRankBounds | backend/alembic/versions/0010_rag_evaluation.py:1416-1435 | The derived reciprocal rank lies in [0, 1], is 0 exactly when nothing relevant was retrieved at any rank and 1 exactly when the first id is relevant |
| Percentile.ContMonotone | backend/alembic/versions/0010_rag_evaluation.py:1723-1737 | A larger fraction never has a smaller percentile, so p50 <= p95 |
| Percentile.ContOrderFree | backend/alembic/versions/0010_rag_evaluation.py:1723-1737 | A percentile does not depend on the order of the rows |
| Percentile.ContBounds | backend/alembic/versions/0010_rag_evaluation.py:1723-1737 | A percentile is between every lower and every upper bound of the values, so between the least and the greatest |
| Percentile.ContInterpolates | backend/alembic/versions/0010_rag_evaluation.py:1723-1737 | A percentile is the value at the given fraction of the way from the first to the last of the values in ascending order, interpolated linearly between its two neighbours |
| EvaluationCase.ExposedExactlyWhenSurfaced | backend/alembic/versions/0010_rag_evaluation.py:915-955 | The derived exposure relation contains a source exactly when it appears on some surface |
| EvaluationCase.NoLeaksExactlyWhenClean | backend/alembic/versions/0010_rag_evaluation.py:1494-1501 | The derived leak count is 0 exactly when no observation surfaces a forbidden or unauthorized source |
| EvaluationCase.DerivedRatios | backend/alembic/versions/0010_rag_evaluation.py:1387-1490 | Every ratio derived from a case lies in [0, 1] and is null together with what it measures |
| EvaluationCase.AcceptedRanksAreFinal | backend/alembic/versions/0010_rag_evaluation.py:1125-1171 | On every accepted observation deduplication is the identity and the reported rank of an id is its derived rank |
| EvaluationCase.AcceptedReportsItsSurfaces | backend/alembic/versions/0010_rag_evaluation.py:1230-1364 | An accepted observation reports exactly the sources it surfaces, and each is bound in the frozen snapshot |
| EvaluationScores.DerivedIsMeasured | backend/alembic/versions/0010_rag_evaluation.py:1387-1506 | The derived scalars of a case are what they are called: the rank scores, correctness of the answer and its complement, the overlap of the spans or boxes highlighted for the expected target, the sum of the durations, the number of single exposures of a forbidden or unauthorized source, and whether all repetitions agree |
| EvaluationScores.LeaksArePlaces | backend/alembic/versions/0010_rag_evaluation.py:1494-1501 | The leak count is the number of pairs of an observation and an exposure of a source that is forbidden or not authorized |
| EvaluationRows.EveryRowIsMeasured | backend/alembic/versions/0010_rag_evaluation.py:957-1538 | In every run every stored case row holds valid observations of its fixture case, and its scalars agree, within the tolerances of the code, with what those observations measure |
| EvaluationAggregates.AggregateMeasures | backend/alembic/versions/0010_rag_evaluation.py:1691-1739 | Each aggregate measures its own scalar: an average times the number of rows that have the scalar is the sum of it over those rows, a share times the number of rows that have the flag is the number of rows where it is set, p50 and p95 are percentiles of the durations of all observations, and the leak total is the sum of the leak counts |
| EvaluationCase.CheckRanked | backend/alembic/versions/0010_rag_evaluation.py:1133-1171 | The loop over ranked items with its rank counter accepts exactly the well-ranked, bound lists |
| EvaluationCase.CheckSources | backend/alembic/versions/0010_rag_evaluation.py:1172-1213 | The loop over a source array accepts exactly the arrays bound position by position |
| EvaluationSafety.NoRoomLeft | backend/alembic/versions/0010_rag_evaluation.py:523-524 | A completed candidate accepts no further case row: as many rows as cases, with distinct ordinals, leave no ordinal free |
| EvaluationSafety.EveryCaseHasARow | backend/alembic/versions/0010_rag_evaluation.py:1680-1702 | As many rows with distinct ordinals as cases give every case its row |
| EvaluationSafety.NotBornCompleted | backend/alembic/versions/0010_rag_evaluation.py:1680-1716 | A candidate cannot be inserted as completed, nor be renamed while completing, because it would have no case rows |
| EvaluationSafety.CompletedIsFrozen | backend/alembic/versions/0010_rag_evaluation.py:1616-1646 | No statement changes a completed candidate, its rows, its run inputs or its dataset |
| EvaluationSafety.AggregatesStayExact | backend/alembic/versions/0010_rag_evaluation.py:1656-1746 | In every run and every later state the aggregates of a completed candidate measure one row per dataset case: recall, reciprocal rank, nDCG and highlight times the number of rows that have them are the sums of exactly those scalars, precision, false grounding and reproducibility the shares of rows with those flags set, p50 and p95 percentiles of all durations, leaks the sum of the leak counts |
| EvaluationSafety.NotBornPassed | backend/alembic/versions/0010_rag_evaluation.py:1750-1775 | A version cannot be inserted as passed through the extractive branch |
| EvaluationSafety.PassedIsNeverLeft | backend/alembic/versions/0056_generative_evaluation_gate.py:236-244 | In every run a version that became passed stays passed, under whatever id its row is given, the generative early return included |
| EvaluationSafety.DefaultIsPassed | backend/alembic/versions/0009_rag_configurations.py:157-197 | In every state of every run at most one version is the default, and it is passed |
| EvaluationSafety.EvaluatedKeepsItsId | backend/alembic/versions/0010_rag_evaluation.py:458-462 | A version that a completed candidate refers to keeps its id |
| EvaluationSafety.CleanCandidateIsEvidence | backend/alembic/versions/0010_rag_evaluation.py:1831-1834 | A completed candidate with no leaks and full reproducibility has, for every dataset case, a row whose repetitions agree and whose every surfaced source is authorized and not forbidden |
| EvaluationSafety.PromotionStaysEvidenced | backend/alembic/versions/0010_rag_evaluation.py:1750-1850 | End to end: whatever run came before and whatever comes later, a version promoted through the extractive branch is passed and has such a candidate, in a completed run whose policy is for the same owner, dataset, cut-off and metric version, with recall, MRR, nDCG, precision, highlight and reproducibility at least its minimum and false grounding, p50, p95 and leaks at most its maximum, each of them measured as above |
| EvaluationSafety.PromotionExactWhen | backend/alembic/versions/0010_rag_evaluation.py:1758-1841 | Without an acceptance the gate lets a stored version become passed exactly when a candidate of it met every one of those limits |
| EvaluationSafety.QualifiedStays | backend/alembic/versions/0010_rag_evaluation.py:1758-1841 | What qualifies a version, candidate, rows, run, policy and limits, is the same and qualifies it after every statement |
| EvaluationStore.Database.UpdateRun | backend/alembic/versions/0010_rag_evaluation.py:1566-1607 | The guard on run inputs, in place |
| EvaluationStore.Database.UpdateCandidate | backend/alembic/versions/0010_rag_evaluation.py:1656-1742 | A completion that is accepted has exactly one case row for every case ordinal and stores aggregates that measure those rows, whatever aggregates were supplied |
| EvaluationStore.Database.UpdateCandidateRow | backend/alembic/versions/0010_rag_evaluation.py:1616-1646 | The guard on candidate inputs with the recomputation, in place |
| EvaluationStore.Database.InsertCandidateRow | backend/alembic/versions/0010_rag_evaluation.py:1743-1746 | A candidate is inserted with the recomputation, in place |
| EvaluationStore.Database.InsertResult | backend/alembic/versions/0010_rag_evaluation.py:957-1538 | The case-result trigger, in place: accepted exactly when the raw observations are valid and the supplied scalars match the derived ones |
| EvaluationStore.Database.UpdateVersion | backend/alembic/versions/0010_rag_evaluation.py:1845-1850 | A version update through the component guard and the gate, in place |
| EvaluationStore.Database.InsertVersion | backend/alembic/versions/0010_rag_evaluation.py:1845-1850 | A version insert through the gate, in place |
| CanonicalJson.CanonicalIsPrint | backend/alembic/versions/0056_generative_evaluation_gate.py:210-221 | The recursive printer prints the normal form, in which the members of every object are sorted by the character codes of their keys |
| CanonicalJson.SortedIsUnique | backend/alembic/versions/0056_generative_evaluation_gate.py:215-216 | Sorted members are determined by their keys and values |
| CanonicalJson.NormalFormDecides | backend/alembic/versions/0056_generative_evaluation_gate.py:210-221 | Two values have the same normal form exactly when they are equal up to member order at every depth |
| JsonParser.CharsRoundTrip | backend/alembic/versions/0056_generative_evaluation_gate.py:215-219 | Parsing an escaped string gives the string back, for every character that section 7 of RFC 8259 requires to be escaped |
| JsonParser.RoundTrip | backend/alembic/versions/0056_generative_evaluation_gate.py:210-221 | Parsing a printed value gives the value back and leaves the rest of the text |
| JsonParser.ParseUndoesCanonical | backend/alembic/versions/0056_generative_evaluation_gate.py:210-221 | The parser undoes the canonical printer up to member order |
| JsonParser.CanonicalDecides | backend/alembic/versions/0056_generative_evaluation_gate.py:208-221 | Two values have the same canonical text exactly when they are equal up to member order at every depth |
| JsonParser.CanonicalKeysAscend | backend/alembic/versions/0056_generative_evaluation_gate.py:214-216 | In canonical text every object, at every depth, lists its keys in ascending order of their character codes |
| JsonParser.CanonicalObjectAscends | backend/alembic/versions/0056_generative_evaluation_gate.py:214-216 | For any two keys of an object in canonical text, p before q: where they first differ p has the smaller character, or p ends there |
| GenerativeVerifier.CheckRawProof | backend/alembic/versions/0059_generative_raw_proof.py:16-51 | The proposition loop and the claim loop, with the running claim number and the accumulated ids, accept exactly the consistent raw proofs |
| GenerativeVerifier.CountMatched | backend/alembic/versions/0057_generative_proof_hardening.py:143-149 | The group loop counts the required evidence groups with a selected member |
| GenerativeVerifier.Contribute | backend/alembic/versions/0057_generative_proof_hardening.py:129-170 | One pass of the loop adds to the counters what its attempt contributes, which GenerativeMeasures.ContributionMeasures states |
| GenerativeVerifier.VerifyCandidate | backend/alembic/versions/0057_generative_proof_hardening.py:20-184 | The verifier loop computes the specified metrics, which GenerativeMeasures.VerifiedMeasures states, or raises exactly when the specification does |
| GenerativeVerifier.GuardAcceptance | backend/alembic/versions/0056_generative_evaluation_gate.py:222-233 | An acceptance is stored exactly when it names the policy, profile and digests of its run and the verifier succeeds; supplied metrics are overwritten by the verified ones |
| GenerativeSafety.LatestPlacesDiffer | backend/alembic/versions/0057_generative_proof_hardening.py:67-69 | No two latest attempts share case and repetition |
| GenerativeSafety.CountedIsCovered | backend/alembic/versions/0057_generative_proof_hardening.py:65-71 | As many latest attempts as cases times repetitions leave no case and repetition without one |
| GenerativeSafety.MetricsAreRatios | backend/alembic/versions/0057_generative_proof_hardening.py:168-184 | Coverage, correctness and abstention of a verified candidate lie in [0, 1]; coverage is 1 exactly when every positive attempt selected a member of every required group |
| GenerativeMeasures.NewestFound | backend/alembic/versions/0057_generative_proof_hardening.py:123-128 | The verdict used is that of the newest judgment of this result and rule by the owner of the run, and there is none exactly when no judgment fits |
| GenerativeMeasures.ContributionMeasures | backend/alembic/versions/0057_generative_proof_hardening.py:129-165 | An attempt counts as correct exactly if an answer is due, given, and passed by its newest judgment or, without one, contains after normalization every required proposition, of which there is one, and no forbidden one; or none is due, none is given, and its newest judgment, if any, passes that. It counts as abstained exactly if no answer is due and none is given |
| GenerativeMeasures.MatchedIsServed | backend/alembic/versions/0057_generative_proof_hardening.py:143-149 | The matched count is the number of required evidence groups with a selected member |
| GenerativeMeasures.VerifiedMeasures | backend/alembic/versions/0057_generative_proof_hardening.py:166-184 | For every verified candidate correctness times the number of attempts is the number of correct ones, abstention times the negatives the number of abstained ones, coverage times the positives the sum of the covered shares, p95 the percentile of the durations, and all four metrics meet the limits of the policy of the run |
| GenerativeMeasures.VerifiesExactlyWhen | backend/alembic/versions/0057_generative_proof_hardening.py:168-177 | When all attempts pass the loop and both kinds of cases are there, the verifier succeeds exactly when the measured metrics are within the limits |
| GenerativeMeasures.AcceptableExactWhen | backend/alembic/versions/0057_generative_proof_hardening.py:72-165 | The checks of the loop body pass exactly for the trustworthy attempts whose rule fits the case and can be decided |
| GenerativeSafety.VerifyOrderFree | backend/alembic/versions/0057_generative_proof_hardening.py:67-69 | The outcome does not depend on the order of the rows |
| GenerativeSafety.AnsweredIsCited | backend/alembic/versions/0059_generative_raw_proof.py:29-50 | For an answered attempt the cited ids are exactly the union of the evidence of its claims, and all of them were selected |
| GenerativeSafety.AcceptableIsTrustworthy | backend/alembic/versions/0057_generative_proof_hardening.py:77-120 | An attempt that passes the loop body is completed without failure or exposure by its own execution, which the run's owner started; an audit for the same owner, version and profile allowed exactly its selected evidence; every surfaced unit is authorized, not forbidden and frozen with a build of the component; and an answer is validly cited |
| GenerativeSafety.SubjectIsBound | backend/alembic/versions/0057_generative_proof_hardening.py:32-64 | A verification is about a completed run under a policy of its owner and the frozen component of the version, which has the generation, indexing and retrieval profiles and the answer policy of the stored version |
| GenerativeSafety.VerifiedIsCompleteAndTrustworthy | backend/alembic/versions/0057_generative_proof_hardening.py:20-184 | In every reachable state: if the verifier succeeds, the latest attempts cover every case and repetition exactly once, nothing else, and each of them is trustworthy |
| PromotionRuns.EveryPromotionHasEvidence | backend/alembic/versions/0056_generative_evaluation_gate.py:236-244 | In every run of statements of both evaluations, acceptances and transactions: a statement makes a version passed only if the version is already stored and either a candidate qualifies it, clean on every dataset case and with every measured aggregate within its policy, or a stored acceptance verifies at that moment on the newest attempts of every case and repetition, each trustworthy and decidable, whose measured metrics are within the policy |
| PromotionRuns.AcceptanceWasVerified | backend/alembic/versions/0056_generative_evaluation_gate.py:222-233 | Every stored acceptance was stored by an event of the run at which the verifier succeeded with its metrics, on the newest attempts of every case and repetition, each trustworthy and decidable, that these metrics measure, within the limits of the policy |
| PromotionRuns.EveryPassedIsBacked | backend/alembic/versions/0056_generative_evaluation_gate.py:234-244 | In every state, committed or not, a passed version has such a candidate or a stored acceptance for which the verifier succeeded when it was stored, whichever branch of the gate let the version through |
| CancellationSafety.KeepsInputs | backend/alembic/versions/0055_generative_evaluation.py:106-132 | Every attempt stays inside the frozen inputs of its run |
| CancellationSafety.AttemptsStayInside | backend/alembic/versions/0055_generative_evaluation.py:106-132 | In every state every attempt is numbered, is for a case, a repetition and a candidate version of its run, and shares neither all of these nor its execution with another attempt |
| CancellationSafety.CancelledIsFrozen | backend/alembic/versions/0066_generative_pending_cancel.py:60-110 | No accepted statement touches a completely cancelled run or its attempts, or adds one |
| CancellationSafety.CancellationIsAllOrNothing | backend/alembic/versions/0066_generative_pending_cancel.py:171-182 | In every committed state an attempt is cancelled exactly when its run is, then at the run's timestamp with no claim, result or error |
| CancellationSafety.CancellationIsFinal | backend/alembic/versions/0066_generative_pending_cancel.py:60-110 | After a committed cancellation the run and its attempts, no more and no fewer, are the same in every later state |
| CancellationSafety.CancelledExactWhen | backend/alembic/versions/0066_generative_pending_cancel.py:60-88 | A stored run can be cancelled exactly while it is pending and unclaimed, its owner is one, dataset and policy are theirs, and none of its attempts was claimed or has an outcome, an execution or an audit |
| CancellationSafety.FinishedIsFinal | backend/alembic/versions/0055_generative_evaluation.py:118-124 | Once a committed attempt is finished, with whatever outcome, its row is the same in every later state |
| GenerativeStore.Database.UpdateRun | backend/alembic/versions/0066_generative_pending_cancel.py:60-87 | The run guard with its cancellation rules, in place |
| GenerativeStore.Database.InsertAttempt | backend/alembic/versions/0066_generative_pending_cancel.py:89-92 | The attempt guard for new attempts, in place |
| GenerativeStore.Database.UpdateAttempt | backend/alembic/versions/0066_generative_pending_cancel.py:89-110 | The attempt guard with its cancellation rules first, in place |
| GenerativeStore.Database.Commit | backend/alembic/versions/0066_generative_pending_cancel.py:171-182 | COMMIT checks every run cancelled in the transaction and keeps or undoes the whole transaction |
| FrozenComponents.ReferencedGrows | backend/alembic/versions/0009_rag_configurations.py:735-746 | The set of profiles that versions refer to only grows |
| FrozenComponents.ReferencedIsFrozen | backend/alembic/versions/0009_rag_configurations.py:748-880 | Every mutation path leaves a profile that a version or another table refers to, its full binding set and the bound models alone |
| FrozenComponents.PinnedGraphNeverChanges | backend/alembic/versions/0009_rag_configurations.py:735-932 | In every run, from the moment a version exists its components, the profiles it names, their binding sets and the models bound to them are the same in every later state |
| FrozenComponents.Registry.UpdateProfile | backend/alembic/versions/0009_rag_configurations.py:748-779 | The profile guard on updates, in place |
| FrozenComponents.Registry.DeleteProfile | backend/alembic/versions/0009_rag_configurations.py:748-779 | The profile guard on deletes, in place, with the cascade to bindings |
| FrozenComponents.Registry.UpdateBinding | backend/alembic/versions/0009_rag_configurations.py:782-832 | The binding guard on updates: the profile before and the profile after must both be free |
| FrozenComponents.Registry.DeleteBinding | backend/alembic/versions/0009_rag_configurations.py:782-832 | The binding guard on deletes, in place |
| FrozenComponents.Registry.UpdateModel | backend/alembic/versions/0009_rag_configurations.py:835-879 | The model guard on updates, in place |
| FrozenComponents.Registry.DeleteModel | backend/alembic/versions/0009_rag_configurations.py:835-879 | The model guard on deletes, in place |
| FrozenComponents.Registry.UpdateVersion | backend/alembic/versions/0009_rag_configurations.py:904-926 | The guard on version components, in place; the row may still get a new id |
| AccessEntries.AddOwnedAce | scripts/windows-isolation/SecurityContract.cs:14-23 | The insertion loop refuses a null list and an account already present, and otherwise inserts before the first inherited entry |
| AccessEntries.RemoveOwnedAce | scripts/windows-isolation/SecurityContract.cs:24-34 | The removal loop refuses a null list and a changed or repeated entry, and otherwise leaves the entries of all other accounts in order |
| AccessEntries.AddedBeforeInherited | scripts/windows-isolation/SecurityContract.cs:14-23 | The owned entry goes right behind the explicit entries that come before the first inherited one, and nothing else moves; a list is refused exactly when the account already has an entry |
| AccessEntries.RemoveUndoesAdd | scripts/windows-isolation/SecurityContract.cs:14-34 | Removing undoes adding |
| AccessEntries.RemoveKeepsOthers | scripts/windows-isolation/SecurityContract.cs:24-34 | Of whatever list it is given, removal keeps every entry of another account and leaves none of the owned account |
| AccessEntries.AddKeepsOrder | scripts/windows-isolation/SecurityContract.cs:20-22 | Adding keeps explicit entries before inherited ones |
| SecurityScope.Scope.Pin | scripts/windows-isolation/SecurityScope.cs:55-68 | Pinning registers the close before its own checks can fail |
| SecurityScope.Scope.Grant | scripts/windows-isolation/SecurityScope.cs:104-115 | The list written is the list as read plus the owned entry, over whatever the list has become by then; the removal is registered before the write, and if the write fails it changes nothing |
| SecurityScope.Scope.LowIntegrity | scripts/windows-isolation/SecurityScope.cs:116-128 | The restoration of the label as read is registered before the low label is written over whatever the label is by then; success means the label read back is the low one |
| SecurityScope.RestoresTop | scripts/windows-isolation/SecurityScope.cs:104-128 | The registered actions give back every list and label found exactly if the top one does not refuse and leaves a state from which the others give them back |
| SecurityScope.Scope.Prepare | scripts/windows-isolation/SecurityScope.cs:20-54 | Whichever step fails, the registered undo actions are pins and locks, then the profile deletion, then up to three removals in grant order for its account, then the label; handles outlive the actions that use them, and unless others have edited something the actions give back every list and label as pinning found it |
| SecurityScope.Scope.RunUndo | scripts/windows-isolation/SecurityScope.cs:109-125 | One undo action writes what it computed from the state it read over the state of the moment of writing, or changes nothing; it refuses exactly when a native call fails or what it read was changed |
| SecurityScope.Scope.Dispose | scripts/windows-isolation/Contract.cs:68-73 | From every consistent stack, each undo action runs once, last registered first, going on after failures and amid edits of other programs before and within each action; the failure flag is exact |
| RollbackSafety.ProfileOnlyAfterCleanCleanup | scripts/windows-isolation/SecurityScope.cs:46-49 | The profile is deleted only if every cleanup registered after it succeeded |
| RollbackSafety.UsedBeforeReleased | scripts/windows-isolation/SecurityScope.cs:55-61 | An action on a list or label runs before the handle it uses is closed, and an action on an account's entry before the account's profile is deleted |
| RollbackSafety.EntryRemovedOrReported | scripts/windows-isolation/SecurityScope.cs:109-113 | The list left is the list as read minus only the owned entry and nothing else is touched, or everything is untouched and the failure reported |
| RollbackSafety.RemovalExactWhen | scripts/windows-isolation/SecurityScope.cs:109-113 | A removal takes only the owned entry out of the list it overwrites if and only if that list agrees, apart from entries of the account, with the list as read; every other entry gets the number of occurrences it had when read |
| RollbackSafety.EntryEditLost | scripts/windows-isolation/SecurityScope.cs:109-113 | A whole rollback in which every action succeeds and no failure is reported can erase an entry of another account |
| RollbackSafety.GrantExactWhen | scripts/windows-isolation/SecurityScope.cs:105-114 | A grant has the effect it would have at the moment of writing if and only if the list has not changed since it was read |
| RollbackSafety.GrantEditLost | scripts/windows-isolation/SecurityScope.cs:105-114 | A grant that succeeds can erase an entry of another account |
| RollbackSafety.LabelRestoredOrReported | scripts/windows-isolation/SecurityScope.cs:120-125 | A label read as the original is left as it is, one read as low gets the original back, and any other is untouched with the failure reported |
| RollbackSafety.RestorationExactWhen | scripts/windows-isolation/SecurityScope.cs:120-125 | A restoration overwrites a label that is neither original nor low if and only if it read another text than the original and such a label was set after that; it leaves the original text if and only if it read another one or the original is still there |
| RollbackSafety.LabelEditLost | scripts/windows-isolation/SecurityScope.cs:120-125 | A restoration that succeeds can erase a label another program set after it read the low one |
| RollbackSafety.LoweringExactWhen | scripts/windows-isolation/SecurityScope.cs:116-126 | Without edits after the lowering, a lowering and its restoration leave the text of the label that the lowering overwrote if and only if it is the text of the label that the lowering read |
| RollbackSafety.LoweringEditLost | scripts/windows-isolation/SecurityScope.cs:116-126 | A lowering and its restoration that both succeed can erase a label another program set between the read and the write of the lowering |
| RollbackSafety.EditsSurvive | scripts/windows-isolation/SecurityScope.cs:104-128 | If no removal overwrites an edit of other accounts' entries, then after every action of a rollback these entries are what the edits of other programs alone make of those at the start |
| RollbackSafety.OwnedStaysGone | scripts/windows-isolation/SecurityScope.cs:109-113 | After its removal no entry of the account is on the list again unless others bring one back |
| RollbackSafety.ListEndsAsEdited | scripts/windows-isolation/SecurityScope.cs:104-128 | At the end of such a rollback a list whose entry was removed is exactly what the edits of others alone make of its other entries |
| RollbackSafety.RollbackIsOwned | scripts/windows-isolation/SecurityScope.cs:20-54 | Whichever step the preparation stopped at, a rollback removes entries of its own account only |
| RollbackSafety.RollbackRestores | scripts/windows-isolation/SecurityScope.cs:104-128 | Without edits of others and native failures every undo action succeeds and, after each of them, the remaining ones still give back every list and label found |
| RollbackSafety.PrepareAndDispose | scripts/windows-isolation/Supervisor.cs:44-136 | Preparing and disposing of a scope, whichever step preparation stopped at: if no failure is reported all it registered is closed and deleted; if moreover no other program edited a list or label, every pinned one is as pinning found it, and without such edits only a native failure makes the rollback fail |
| RollbackSafety.NothingLeft | scripts/windows-isolation/Contract.cs:72-72 | If no failure is reported, every registered handle is closed and the profile is deleted |
| IssueKeys.KeysDiffer | backend/alembic/versions/0053_issue_numbers.py:82-84 | Different numbers have different keys, and every key has the neutral form |
| IssueKeys.KeyIsPadded | backend/alembic/versions/0053_issue_numbers.py:82-84 | A key is the prefix and the decimal number, in five digits or, when they do not suffice, without leading zero |
| Renumbering.Tracker.FreeKeys | backend/alembic/versions/0053_issue_numbers.py:58-65 | The first loop gives every issue a temporary key and keeps its old key as an alias |
| Renumbering.Tracker.NextFree | backend/alembic/versions/0053_issue_numbers.py:82-83 | The inner loop ends at the next number whose key is not in use |
| Renumbering.Tracker.Assign | backend/alembic/versions/0053_issue_numbers.py:81-113 | The nested loops give the issues, in key order, the smallest free numbers, raise each revision by one and record one event each; the next number is at most 2n + 1 |
| Renumbering.NothingSmaller | backend/alembic/versions/0053_issue_numbers.py:81-85 | No other increasing list of free numbers is smaller at any place |
| Renumbering.NewKeysAreNew | backend/alembic/versions/0053_issue_numbers.py:82-85 | New keys are pairwise distinct, different from every old key, and numbered below the stored next number |
| Renumbering.RenumberedNamesUnique | backend/alembic/versions/0053_issue_numbers.py:118-123 | No key, old or new, names two issues |
| Renumbering.Tracker.Upgrade | backend/alembic/versions/0053_issue_numbers.py:17-123 | The whole upgrade ends with the identifier table holding exactly the old and new key of every issue |
| Renumbering.Tracker.Save | backend/alembic/versions/0053_issue_numbers.py:124-136 | A later insert or update keeps the table exact, and is refused exactly when a name is longer than its column, a name belongs to another issue or the key is not neutral |

## Findings

- An edit that another program makes to an access list between the read and the write of an undo action is lost, and no
  failure is reported (`scripts/windows-isolation/SecurityScope.cs:109-113`). `EntryEditLost` gives a whole successful
  rollback that erases another account's entry. `RemovalExactWhen` gives the condition: the removal takes only the owned
  entry out of the list it overwrites if and only if that list agrees, apart from entries of the account, with the list as
  read. `EditsSurvive` and `ListEndsAsEdited` extend it to whole rollbacks. A grant has the same gap
  (`SecurityScope.cs:105-114`): `GrantEditLost` and `GrantExactWhen`.
- A label that is neither the original nor the low one blocks the restoration when it is read, but is overwritten, with
  success, when it is set after the read (`SecurityScope.cs:120-125`). `LabelEditLost` gives the case, and
  `RestorationExactWhen` the condition: it happens if and only if another text than the original was read and such a label
  was set after that. Lowering the label (`SecurityScope.cs:116-126`) has the same gap: it registers for restoration
  the label it read and overwrites the label of the moment of writing. `LoweringEditLost` gives a lowering and a restoration
  that both succeed and erase another program's label; `LoweringExactWhen` the condition: without later edits the text it
  overwrote comes back if and only if that is the text it read.

## Left out

- JSON key shapes, regular expressions, UUID formats and the key allowlists of proofs: rows are typed records.
- The manifest set of an epoch and its per-manifest digests (0062:335-340 and 378-382), and the digest column of receipts.
- Digests are not computed, and the tie of the recorded epoch proof to its canonical text (0062:108-112) is not used.
- Row locks, advisory locks and isolation levels: transactions are serial, and a rolled-back transaction leaves no trace.
- Floating-point rounding, infinities and NaN.
- Names, versions and per-owner uniqueness of datasets and policies.
- The component validation triggers on configuration versions (0009:668-732 and their later forms): they only refuse more.
- Foreign keys into tables that are not modelled: they only refuse more; for configuration versions and profiles they enter as sets of held ids.
- The document-processing field of configuration versions added by 0017, which the 0009 trigger does not freeze.
- The rows of executions, audits, judgments and users in the generative part: they may change in any way between statements, so the synchronization of executions in 0056 is not modelled.
- A generative run that is completed or failed may be updated again by the guards, so no such run is claimed to be final, nor that an accepted one would verify again.
- That a floor points at a verified epoch, or that a request id is never reused after other claims: the guards do not ensure it.
- Renumbering.Tracker.Save: a name that exceeds its column only by trailing blanks counts as too long, although the database shortens it.
- Renumbering.Tracker.Upgrade: does not model column widths (100 characters, bigint), which no table of feasible size exceeds.
- Uniqueness of the temporary keys during renumbering, which rests on fresh UUIDs.
- Events and rows of other tables written by the renumbering beyond key, revision and the recorded event.
- Downgrades, seeds, plain table creation, and 0063, whose SQL comes from a module that is not part of this model.
- Win32 calls, process launch, sockets, the supervisor and the canary of the isolation scripts.
- Frontend, API wiring, settings, search clients and document processing.
