# State Index, modelled in Dafny

State Index is a coordinator that keeps versioned records per state id. Workers publish records,
add and remove locations, invalidate and tombstone; clients query; the coordinator saves its
tables to an image and recovers from it. This project models four parts of it and proves how they
hold together.

**The engine as a state machine.** `Transitions` gives the effect of every mutation on the engine's
state as a function, `Recovery` what saving and loading makes of it, and `Runs` any sequence of
steps from a fresh engine. `Invariants`, `Retirement`, `Runs`, `Mirror` and `Packing` hold what is
true along every run: the incrementally kept current map equals the batch rule of recovery,
retirement is final, tombstones are absolute across restarts, current generations rise between
invalidations, and the authority registry mirrors the engine. `Fencing` says exactly which mutations are
accepted and that the tokens of a dead boot change nothing, `Effects` what an accepted one writes, and
`Survival` what is left after a restart, all on fields. `Indexes`, `IndexRuns` and `IndexMeaning` say what
the secondary indexes hold along every run.

**The objects.** `AuthorityRegistry`, `SecondaryIndexes`, `StateIndexEngine`, `ByteWriter` and
`ByteReader` are classes with the fields of the original, changed in place by methods with the
original's loops. Each mutating method of the engine is proved to make exactly the step that the
state machine specifies, to extend the indexes by exactly the records it touched, and to keep the
invariant exactly when that step does. A run of the state machine is therefore what a sequence of mutating
calls on the object does.

**The planner.** `Planner` defines filters, placement choice, factors, ranking and outcome;
`Evaluation` computes them with the original's loops. `Soundness` and `Places` say what it means to be found
and at which place, `Reasons` why a record is passed over, `Ranking` and `RankingMeaning` what comes before
what, and `Outcomes` what each outcome says when nothing is found; all are stated on the fields of queries, records
and locations, without the planner's own scores. `Answers` says that indexes and a full scan agree, `RecoveredAnswers`
that recovery changes no answer, and `Witnesses` where promised properties fail.

**The byte formats.** `ByteBuf`, `RecordCodec`, `LedgerCodec`, `QueryCodec`, `Frame`, `Crc` and
`Image` give each format twice, as a printer in front of a tail and as a parser, and prove that they
undo each other, which inputs are refused, and which damage is always detected. `Layouts` gives every format a
third time, as a list of fields with their widths. CRC-32 is computed bit by bit, proved equal to the table-driven
loops, and proved in `Polynomial` to be the frame check sequence of section 3.2.9 of IEEE 802.3.
`Persistence` combines the formats with the state machine.

## Conventions

- Identities, generations and boots are 64-bit numbers and zero is unset. Enumerations are their codes (`Codes`).
- SHA-256 is a parameter: any function from bytes to 32 bytes. Nothing is claimed about collisions.
- Doubles are their 64 bits in the formats. In ranking they are reals, given by a parameter from the bits.
- `Digest` is any function of a record. Theorems about runs ask that it reads neither the stored digest
  nor what is not persisted, and `Persistence.DigestIgnoresUnhashed` shows that the record digest does not.
- `Option` results stand for the exceptions of the reader.
- Runs are runs of callers that do not make a record current in the lifecycles SUPERSEDED, INVALIDATED and
  TOMBSTONED and whose accepted tombstones are marked current, as every caller in the repository does.
  `RegisterKeepsInv` and `TombstoneKeepsInv` show that this is exactly what the invariant needs, and
  `Witnesses` what happens otherwise.
- Saving assumes one record per state and generation and the loader's bounds. `SavedImageLoads` shows
  that these and matching digests are exactly what is needed, and `Packing` that workers' ids provide the first.

## Where code and documentation differ

- README.md, lines 126-128, promises that a stale re-add never resurrects invalidated authority.
  `register_state` does not read the invalidations: a generation at or below the bound that was never
  registered is accepted and becomes current (`Limits`). What was registered and invalidated stays so
  (`Runs.RetirementIsFinal`).
- include/stateindex/query.hpp, line 95, says that the wildcard flag matches any state id. A query that also names a
  state still looks at that state only (`Answers.WildcardLooksAtOneState`, `Witnesses.WildcardMissesOtherStates`).
- src/engine.cpp, line 745, says that the "only" outcomes require their category to be present alone. The tests below
  it give INCOMPATIBLE_ONLY with records eliminated for unnamed reasons and STALE_ONLY with invalidated or incompatible
  ones; and a mix of invalidated and incompatible records is answered NOT_FOUND. `Outcomes.OutcomeMeaning` gives every
  outcome exactly, `Outcomes.OnlyMeansAlone` says when "only" means alone, and `Witnesses.OnlyIsNotAlone` is a run where
  it does not.
- The header of include/stateindex/accounting.hpp says decrements of zero are reported; the engine decrements
  plainly. It never meets zero (`Invariants.RemovalNeverWraps`).

## Model

| member | source | states |
|---|---|---|
| Runs.ReachableInv | src/engine.cpp:131-403 | In every state reachable by any run of mutations, worker changes, epoch advances and recoveries: histories list exactly the records of their state, `current_` obeys the batch rule of `recompute_current`, generations are set, stored tombstones are in force, every digest matches, and the location counter covers every location held |
| Runs.CurrentMeaning | src/engine.cpp:131-158 | In every reachable state a state has a current record if and only if it has one that is neither superseded, invalidated nor tombstoned and lies above the floor of the tombstone in force; the current one is such a record of the highest generation |
| Runs.RunEvolves | src/engine.cpp:131-403 | Along any stretch of a run every record stays, with the same identity, boot and description, and stays terminal once it is |
| Runs.RetirementIsFinal | src/engine.cpp:144-173 | A superseded, invalidated or tombstoned record stays so through everything that follows, is never current again, and its id is never accepted for publication again |
| Runs.RunFloorsRise | src/engine.cpp:350-355 | Stored tombstone floors only rise along a run, through recovery as well |
| Runs.NoResurrection | src/engine.cpp:178-182 | Once a tombstone with some floor is stored, nothing of its state at or below the floor is ever current and no such publication is ever accepted, also after recovery into an engine with any other registry |
| Runs.CurrentGenerationsIncrease | src/engine.cpp:131-158 | Between accepted invalidations of a state, whatever is current later is the same record or one of a strictly higher generation |
| Runs.LocationEffect | src/engine.cpp:209-272 | A location step that passes its checks gives the state's current record exactly its new locations and the counters exactly their increments, and changes nothing else; any other changes nothing |
| Runs.LocationsAfterMeaning | src/engine.cpp:225-260 | After an addition the given location is at its placement and no other is; after a removal none is; the locations elsewhere stay as they are, in order |
| Fencing.AdditionAccepted | src/engine.cpp:209-224 | A location is accepted if and only if it comes in the present epoch from a live boot for a state with a current record and, when the tokens carry a location generation, is newer than whatever is at its placement; the verdict of each refusal, and nothing changes on one |
| Fencing.RemovalAccepted | src/engine.cpp:245-253 | A removal is accepted if and only if it comes in the present epoch from a live boot for a state with a current record; a refusal changes nothing |
| Fencing.InvalidationAccepted | src/engine.cpp:275-285 | An invalidation is accepted if and only if it comes in the present epoch from a live boot and the state's current record, if any, is within the bound; a refusal changes nothing |
| Fencing.TombstoneAccepted | src/engine.cpp:341-349 | A tombstone is accepted if and only if it comes in the present epoch from a live boot and raises the floor of the stored one; a refusal changes nothing |
| Fencing.PublicationAccepted | src/engine.cpp:160-182 | A publication is accepted if and only if epoch, live boot, set generation, floor, live holder, fresh id and stored tombstone allow it; which counter each refusal moves |
| Fencing.AuthorityAlongRuns | include/stateindex/authority.hpp:143-160 | Along any run a boot is live exactly when it has registered and neither left nor been cut off by a load since, and the epoch is the first one advanced as often as it was |
| Fencing.DeadBootsChangeNothing | src/engine.cpp:162-349 | Along any run, a mutation with the tokens of a boot that is gone or of another epoch changes nothing but the count of refused publications |
| Effects.PublicationEffect | src/engine.cpp:160-206 | Field by field what an accepted publication stores: stamps of boot, epoch and record generation, seal, retired predecessor, current map, and counters as numbers of locations by domain |
| Effects.AdditionEffect | src/engine.cpp:225-242 | An accepted addition stores the location stamped with epoch, boot and provenance generation in place of what was there or at the end, seals the record, and counts what it replaced or one location and one replica |
| Effects.RemovalEffect | src/engine.cpp:245-272 | An accepted removal takes away every location at the placement, seals the record and counts one location less in 64 bits; with none there it changes nothing |
| Effects.InvalidationEffect | src/engine.cpp:286-314 | An accepted invalidation logs itself under the next number modulo 2^64 with the sender's tokens, and marks, seals and makes historical exactly the records up to its bound |
| Effects.PromotionEffect | src/engine.cpp:315-335 | In any consistent engine, batch rule or not: if an accepted invalidation reaches a record or finds a current one, the highest record above the bound that is discovered, available or degraded and not buried becomes current, is counted and becomes the holder, or the state is left without either; otherwise nothing moves |
| Effects.TombstoneFields | src/engine.cpp:350-371 | An accepted tombstone is stored with the sender's tokens, sets the floor, counts once, and marks, seals and makes historical exactly the records up to the floor |
| Runs.StepTombstones | src/engine.cpp:341-356 | The only step that changes the tombstones is an accepted tombstone |
| Invariants.RegisterEffect | src/engine.cpp:160-206 | Part by part what an accepted publication does: new record, supersession of a lower current generation, current map, holder, history, counters; a lower generation leaves the current record alone |
| Invariants.RegisterKeepsBatch | src/engine.cpp:131-158 | Publishing keeps the batch rule if and only if the record's lifecycle is not terminal or it does not become current |
| Invariants.RegisterKeepsInv | src/engine.cpp:160-206 | A publication keeps the whole invariant if and only if it is refused, its lifecycle is not terminal, or it does not become current |
| Witnesses.SupersededPublicationBecomesCurrent | src/engine.cpp:160-206 | A run after which a record published as SUPERSEDED is accepted and becomes current, against the batch rule |
| Invariants.RegisterRefused | src/engine.cpp:162-182 | A refused publication changes one rejection counter and nothing else |
| Invariants.AddLocationKeepsInv | src/engine.cpp:209-242 | Adding or replacing a location keeps the whole invariant |
| Invariants.RemoveLocationKeepsInv | src/engine.cpp:245-272 | Removing a location keeps the whole invariant |
| Invariants.RemovalNeverWraps | src/engine.cpp:254-270 | When a removal decrements the location counter it is above zero; removing an absent location changes nothing |
| Retirement.InvalidationClears | src/engine.cpp:275-338 | In any state obeying the batch rule an accepted invalidation promotes nothing, leaves its state without a current record, invalidates exactly the records up to the bound and touches no other |
| Retirement.NothingToPromote | src/engine.cpp:315-330 | The promotion branch is never taken in such a state |
| Retirement.InvalidateKeepsInv | src/engine.cpp:275-338 | Invalidation keeps the whole invariant |
| Retirement.TombstonedRecord | src/engine.cpp:358-371 | After an accepted tombstone every record of the state up to the floor is TOMBSTONED, and records above it and of other states are untouched and exactly as eligible as before |
| Retirement.TombstoneKeepsBatch | src/engine.cpp:341-379 | Tombstoning keeps the batch rule if and only if the tombstone is marked current or the current record is above its floor |
| Retirement.TombstoneKeepsInv | src/engine.cpp:341-379 | A tombstone keeps the whole invariant if and only if it is refused or marked current |
| Witnesses.IdleTombstoneLeavesBuriedCurrent | src/engine.cpp:341-379 | A run after which a tombstone not marked current is accepted, buries the current record and leaves it current |
| Retirement.RecoverKeepsInv | src/engine.cpp:943-973 | Recovery keeps the whole invariant |
| Retirement.BatchCurrentUnique | src/engine.cpp:381-395 | With one record per generation the batch rule determines the current map, whatever order the hash table yields |
| Packing.PackInjective | src/worker_main.cpp:30 | The id that workers build from state and generation is injective when both fit in 32 bits: the state id is its upper half and the generation its lower half |
| Packing.PackedRunsHaveUniqueGenerations | src/worker_main.cpp:30 | As long as every publication builds its id that way, no reachable state has two records of one generation |
| Authority.Registry.Validate | src/authority.cpp:7-82 | A publication is accepted if and only if its epoch is current, its boot live, its generation set and above the floor, and above the held generation whenever the holder is the same boot or live; a dead boot's generation fences nothing |
| Authority.AuthorityRegistry.RegisterWorker | include/stateindex/authority.hpp:147-155 | The boot becomes live and nothing else changes |
| Authority.AuthorityRegistry.UnregisterWorker | include/stateindex/authority.hpp:157-160 | The boot is no longer live and nothing else changes |
| Authority.AuthorityRegistry.AdvanceEpoch | include/stateindex/authority.hpp:143 | The epoch moves on by one in 64 bits and nothing else changes |
| Authority.AuthorityRegistry.SetTombstoneFloor | include/stateindex/authority.hpp:173-175 | The floor of one state is set and nothing else changes |
| Authority.AuthorityRegistry.SetCurrentAuthority | include/stateindex/authority.hpp:184-186 | The holder of one state is set and nothing else changes |
| Authority.AuthorityRegistry.ClearCurrentAuthority | include/stateindex/authority.hpp:187-189 | The holder of one state is removed and nothing else changes |
| Authority.AuthorityRegistry.ValidateStatePublication | src/authority.cpp:7-82 | The branches of the decision over the live fields: accepted if and only if epoch, boot, generation, floor and live holder allow it, and each refusal as in Registry.Validate |
| Mirror.RegistryMirrorsEngine | src/engine.cpp:131-379 | From a fresh engine and without a load, the registry's holders are exactly the generation and boot of the current records, and its floors exactly those of the stored tombstones |
| Mirror.AcceptedGenerationsIncrease | src/authority.cpp:38-74 | While a state keeps a holder whose boot is live, the generations accepted for it strictly increase |
| Limits.PublicationIgnoresInvalidations | src/engine.cpp:160-206 | Whether a publication is accepted does not depend on the recorded invalidations |
| Limits.ReAddAfterInvalidation | README.md:126-128 | Against the stated promise: in any sound engine, right after an accepted invalidation a publication for the state is accepted if and only if epoch, boot, fresh id, set generation, floor and tombstones allow it, and the old holder where the invalidation found nothing to clear; the bound plays no part, and what is accepted becomes current |
| Limits.StaleReAddHappens | README.md:126-128 | A concrete run in which generation 3, never registered before, becomes current although everything through generation 9 was invalidated |
| Indexes.ReindexOnlyAdds | include/stateindex/index.hpp:32-77 | Removing a record in its new form and inserting it again adds it under its keys and removes it from none it has lost |
| IndexRuns.EveryRunIsIndexed | src/engine.cpp:145-369 | Every run has indexes: what is stated of indexed runs is stated of every run |
| IndexRuns.EntriesAreHistory | src/engine.cpp:145-369 | Along any run each index entry is exactly the set of records that have had the key since the run began or the indexes were last rebuilt |
| IndexRuns.FixedIndexesExact | include/stateindex/index.hpp:32-77 | Indexes keyed on state, kind, namespace, owner, producer, digest, compatibility, dependency target, freshness, health, generation and size always hold exactly the records with the key |
| IndexMeaning.KeysMeaning | include/stateindex/index.hpp:32-52 | Under which keys a record is filed, on its fields: unset owner, producer, digest and device are not filed, and the size bucket is the exponent of the highest power of two in the size |
| IndexMeaning.FiledByFields | include/stateindex/index.hpp:88-111 | In every reachable state an index on unchanging fields lists exactly the records whose field has the value |
| IndexMeaning.CandidatesMeaning | src/engine.cpp:405-421 | In every reachable state a query looks at exactly the records of its state, else those of its kind, else all |
| IndexRuns.EntriesConsistent | src/index.cpp:28-83 | In every reachable state no index entry dangles and no record is missing from an index it qualifies for |
| IndexRuns.VerifyCleanIffPlacementsUnique | src/index.cpp:23-89 | The index check is clean all along a run if and only if no two records ever hold one placement at the same time |
| Witnesses.VerifyComplainsOfSharedPlacement | src/index.cpp:53-87 | A run of accepted publications after which the index check complains: two records hold one placement |
| SecondaryIndexes.SecondaryIndexes.Add | include/stateindex/index.hpp:144-150 | Adds the id under the key, keeping the list ascending and free of duplicates |
| SecondaryIndexes.SecondaryIndexes.Rem | include/stateindex/index.hpp:152-159 | Takes the id out from under the key and drops an emptied list |
| SecondaryIndexes.SecondaryIndexes.InsertRecord | include/stateindex/index.hpp:32-52 | Files the record under exactly its keys and makes it owner of exactly its placements |
| SecondaryIndexes.SecondaryIndexes.RemoveRecord | include/stateindex/index.hpp:54-77 | Takes the record out from under exactly its keys and gives up exactly the placements it owns |
| SecondaryIndexes.SecondaryIndexes.Rebuild | include/stateindex/index.hpp:79-86 | Holds every listed record under exactly its keys and nothing else; of records sharing a placement the one with the highest id owns it |
| SecondaryIndexes.SecondaryIndexes.SizeBucketOf | include/stateindex/index.hpp:161-166 | The shifting loop computes the bucket: how often the size halves before it is at most one |
| SecondaryIndexes.SecondaryIndexes.IdsWith | include/stateindex/index.hpp:88-111 | A lookup returns exactly the ids filed under the key, in ascending order |
| SecondaryIndexes.SecondaryIndexes.OwnerOf | include/stateindex/index.hpp:113-118 | The owner of a placement, or none |
| SecondaryIndexes.SecondaryIndexes.CheckReferences | src/index.cpp:25-51 | Reports nothing if and only if every index entry is a known record |
| SecondaryIndexes.SecondaryIndexes.CheckRecord | src/index.cpp:53-87 | Reports nothing if and only if the record is in every index it belongs to and owns every placement it holds |
| SecondaryIndexes.SecondaryIndexes.Verify | src/index.cpp:23-89 | Sound and complete: reports nothing if and only if no entry dangles, none is missing, and every placement is owned by its holder |
| Engine.StateIndexEngine.constructor | src/engine.cpp:57 | A fresh engine: empty tables, empty indexes, the given epoch, and the invariant |
| Engine.StateIndexEngine.MakeCurrent | src/engine.cpp:131-158 | The new state and indexes of `set_current`: holder, history, supersession with one re-indexed record, or nothing for an older generation |
| Engine.StateIndexEngine.CountPublication | src/engine.cpp:191-203 | The counting loops add one per dependency and location and by domain |
| Engine.StateIndexEngine.GuardPublication | src/engine.cpp:162-182 | The verdict of every guard in order; a refusal changes one counter |
| Engine.StateIndexEngine.RegisterState | src/engine.cpp:160-206 | Verdict and whole new state as specified, the indexes extended by exactly the records it touched, and the engine sound again if and only if the publication is refused, not terminal, or not made current |
| Engine.StateIndexEngine.Merge | src/engine.cpp:229-234 | Every location at the placement is replaced and counted; with none there it is appended and counted as a replica |
| Engine.StateIndexEngine.AddLocation | src/engine.cpp:209-242 | Accepted only in the present epoch from a live boot; verdict and whole new state as specified, indexes extended by the one record, invariant kept |
| Engine.StateIndexEngine.RemoveLocation | src/engine.cpp:245-272 | Accepted only in the present epoch from a live boot; verdict and whole new state as specified, with a plain decrement that is proved not to wrap; indexes extended by the one record, invariant kept |
| Engine.StateIndexEngine.HistoryRecords | src/engine.cpp:102-113 | Exactly the stored records of the state's history, newest generation first |
| Engine.StateIndexEngine.MarkInvalid | src/engine.cpp:298-314 | Exactly the listed records up to the bound are marked, sealed and re-indexed |
| Engine.StateIndexEngine.PickBest | src/engine.cpp:317-326 | The scan returns a promotable record of the highest generation, or none if there is none |
| Engine.StateIndexEngine.Promote | src/engine.cpp:315-335 | The current record, holder and counter after the scan, whatever it found |
| Engine.StateIndexEngine.Invalidate | src/engine.cpp:275-338 | Accepted only in the present epoch from a live boot; verdict and whole new state as specified, the state left without a current record, indexes extended by exactly the marked records, invariant kept |
| Engine.StateIndexEngine.BuryListed | src/engine.cpp:358-371 | Exactly the listed records up to the floor are marked, sealed and re-indexed |
| Engine.StateIndexEngine.Tombstone | src/engine.cpp:341-379 | Accepted only in the present epoch from a live boot; verdict and whole new state as specified, indexes extended by exactly the marked records, and the engine sound again if and only if the tombstone is refused or marked current |
| Engine.StateIndexEngine.ScanRecords | src/engine.cpp:381-395 | The scan in any order yields a current map obeying the batch rule |
| Engine.StateIndexEngine.RecomputeCurrent | src/engine.cpp:381-403 | The scan, and every record marked historical exactly when it is not current |
| Engine.StateIndexEngine.CandidateIds | src/engine.cpp:405-421 | The candidate ids, ascending: of the state, else of the kind, else all |
| Engine.StateIndexEngine.AnswerQuery | src/engine.cpp:824 | The answer of the planner over the present indexes, for current records |
| Engine.StateIndexEngine.AnswerHistorical | src/engine.cpp:826 | The answer of the planner over the present indexes, in historical mode |
| Engine.StateIndexEngine.CanonicalRecords | src/engine.cpp:69-76 | Every record once, by ascending id |
| Engine.StateIndexEngine.IndexVerification | src/engine.cpp:976-978 | Reports nothing if and only if the indexes are consistent with the records |
| Engine.StateIndexEngine.Save | src/engine.cpp:835-859 | The image of the present state, with the tombstones in some order |
| Engine.StateIndexEngine.LoadRecords | src/engine.cpp:915-927 | Succeeds if and only if the records parse and no id, no generation of a state and no digest is refused; the table holds exactly the records admitted, all of them on success |
| Engine.StateIndexEngine.RebuildHistory | src/engine.cpp:928-930 | Histories rebuilt from the records, each record once |
| Engine.StateIndexEngine.LoadLedgers | src/engine.cpp:932-946 | Succeeds if and only if the rest of the payload parses; then holds it, with the live boots cleared and the epoch set |
| Engine.StateIndexEngine.RevalidateRecord | src/engine.cpp:953-970 | Locations in CUDA_DEVICE, HOST_PINNED and HOST_MEMORY are marked for revalidation, the others stay, and a changed record is sealed again |
| Engine.StateIndexEngine.Restore | src/engine.cpp:948-972 | Indexes rebuilt, the locations of every record revalidated by domain, current map recomputed |
| Engine.StateIndexEngine.Load | src/engine.cpp:879-973 | Succeeds if and only if the image is readable; the new state is then its recovered form with exact indexes, consistent whatever the image, and sound if the image's counters, generations and tombstones are; a damaged envelope changes nothing; contents refused behind an intact envelope leave only admitted records, no current map, old indexes, floors and holders |
| Engine.StateIndexEngine.LoadSaved | src/engine.cpp:879-973 | Loading an image of a sound state within the bounds succeeds and makes the engine that state's recovered form, which is what survives field by field, sound again and with exact indexes |
| Engine.SaveAndLoad | src/engine.cpp:835-973 | Saving one engine and loading into another succeeds and makes the second the recovered form of the first, which is what survives field by field |
| Survival.RecoveryMeaning | src/engine.cpp:943-973 | What recovery leaves, field by field: locations in CUDA_DEVICE, HOST_PINNED and HOST_MEMORY become REVALIDATION_REQUIRED, all others keep everything but process handle and scope; a record that changes is sealed again; no boot is live; every other table stays |
| Survival.LoadMeaning | src/engine.cpp:943-973 | The same for whatever a loaded image holds: every record of the image survives so, and there is no other |
| SelfCheck.InvariantCheck | src/engine.cpp:980-1036 | Reports nothing if and only if every current record passes every test, generations are highest, indexes and digests are right |
| SelfCheck.CleanCheckMeaning | src/engine.cpp:980-1036 | In any engine, sound or not, the check passes if and only if indexes and digests are right and every current record is one of its state that stands, serves, has its dependencies and is of the highest generation that stands |
| SelfCheck.SoundEngineCheck | src/engine.cpp:980-1036 | In a sound engine the check can only complain of a current record without usable location, of an unsatisfied required dependency, or of a shared placement |
| Evaluation.CheckRequirement | src/engine.cpp:536-549 | One query requirement against all dependencies of a record |
| Evaluation.CheckRequirements | src/engine.cpp:535-549 | The first failing requirement decides |
| Evaluation.CheckDependencies | src/engine.cpp:90-100 | True if and only if every required dependency is current at its generation and neither invalidated nor tombstoned |
| Evaluation.CollectUsable | src/engine.cpp:557-571 | Exactly the usable locations that meet the constraints, in order |
| Evaluation.ChooseBest | src/engine.cpp:580-594 | The first offering location of the highest value |
| Evaluation.EvaluateCandidate | src/engine.cpp:454-683 | The assessment: in scope if and only if every record and placement condition holds; else the reason of the first filter that fails |
| Evaluation.ClassifyEmpty | src/engine.cpp:731-757 | The outcome when nothing is in scope |
| Evaluation.RunQuery | src/engine.cpp:697-780 | The whole answer: survivors, each outranking every later one, losers with reasons, outcome and selection |
| Soundness.RecordFilterMeaning | src/engine.cpp:465-555 | The record filters together accept exactly the records that meet every condition, stated without their order |
| Places.BestIsBest | src/engine.cpp:580-594 | The search settles on the first of the record's offering locations of the highest value: preference, local access and health in points, and a share below one for latency |
| Places.ChosenMeaning | src/engine.cpp:580-594 | With latencies at least zero a place is chosen if and only if it offers and beats every other offering place: more points, or as many and a lower latency, or all the same and an earlier place |
| Places.PreferenceMeaning | src/engine.cpp:585-586 | A domain listed once, as the i-th of n preferred ones, is worth n - i points, and one not listed none |
| Places.HealthierThenFaster | src/engine.cpp:580-594 | Between offering places of one domain and access class the chosen one is the healthier, then the faster, then the earlier |
| Places.PlacementFilterMeaning | src/engine.cpp:556-612 | Which placement condition each placement rejection stands for, and in which order they are tested |
| Soundness.FoundIsSound | src/engine.cpp:454-683 | Whatever is in scope meets every record condition and every placement condition (a suiting location, required health, required freshness, replica count cut to 32 bits, cost of the chosen place) and offers the first best place with its factors |
| Soundness.FoundIsComplete | src/engine.cpp:454-683 | A record is in scope if and only if it meets every record condition and every placement condition |
| Soundness.OneCurrentPerState | src/engine.cpp:495-502 | A query for current records finds at most one record of any state, and it is the current one |
| Soundness.ExactCurrentFindsOne | src/engine.cpp:758-779 | For an exact identity it never answers FOUND_MULTIPLE and selects only the state's current record |
| Soundness.FoundHasEvidence | src/engine.cpp:522-533 | Found outcomes go with candidates; every candidate meets the compatibility requirement with a known outcome; FOUND_EXACT means an exact match |
| Reasons.ReasonMeaning | src/engine.cpp:454-615 | Each of the fourteen reasons is given if and only if the declared conditions name it, down to the first unmet requirement |
| Reasons.EliminatedMeaning | src/engine.cpp:697-713 | An answer lists exactly the looked-at records that are passed over, once, by ascending id and with that reason |
| Outcomes.EachRecordFallsOnce | src/engine.cpp:454-615 | Every record is in scope or falls under exactly one category, stated by what it lacks: the category of the reason it is given |
| Outcomes.SawIsSeen | src/engine.cpp:732-744 | The flags of the outcome loop say exactly under which categories the listed records fall |
| Outcomes.OutcomeMeaning | src/engine.cpp:745-757 | For every query over every catalog: each outcome of an answer that finds nothing, if and only if the categories of the looked-at records are the stated ones |
| Outcomes.NotFoundDespiteCandidates | src/engine.cpp:745-757 | With records looked at, NOT_FOUND is answered if and only if they are a mix of invalidated and incompatible ones, at least one of each, and nothing else |
| Outcomes.OnlyMeansAlone | src/engine.cpp:745-753 | A category that is alone gets its outcome; INVALIDATED_ONLY always means alone; INCOMPATIBLE_ONLY does if and only if no record fell out for another reason; STALE_ONLY does if and only if none was invalidated or incompatible |
| Witnesses.OnlyIsNotAlone | src/engine.cpp:745-757 | A run and three queries: STALE_ONLY with an invalidated record looked at, INCOMPATIBLE_ONLY with one of another namespace, and NOT_FOUND with two records of the state |
| Ranking.StrictTotalOrder | src/engine.cpp:687-694 | The comparison is a strict total order on candidates of different records, and says that the first differing factor is greater, or the generation is higher, or the record id lower |
| Ranking.RankingIgnoresOrder | src/engine.cpp:714 | The ranked list is the same whatever order the survivors come in |
| Ranking.SortCandidates | src/engine.cpp:714 | Sorting yields the one sorted arrangement, in which each candidate outranks every later one |
| RankingMeaning.RankedOutranks | src/engine.cpp:687-714 | Of two candidates in an answer the earlier has the greater factor at the first that differs, or the higher generation, or the lower record id |
| RankingMeaning.RankedAreTheAccepted | src/engine.cpp:697-714 | The candidates of an answer are exactly those of the looked-at records that meet every condition |
| RankingMeaning.SelectedOutranks | src/engine.cpp:758-779 | The selection is the record, generation, placement and state of the candidate that outranks all others |
| RankingMeaning.FactorOrder | src/engine.cpp:614-677 | With costs at least zero each of the fourteen factors orders candidates as its key does: identity, preference and access, compatibility grade, health, freshness, generation, then latency, transfer, bandwidth, restore and reuse cost, replicas, policy, adaptation cost |
| RankingMeaning.RankedByFields | src/engine.cpp:614-714 | Why one candidate is listed before another, on the fields of their records and chosen locations |
| RankingMeaning.FoundOutcomes | src/engine.cpp:758-770 | FOUND_MULTIPLE means several candidates; a single one is FOUND_EXACT if and only if the query names its state without a wildcard and what it asks of compatibility and content is met exactly, and else FOUND_COMPATIBLE |
| Answers.IndexAgreesWithScan | src/engine.cpp:405-421 | With exact indexes an index-driven query ranks and selects what a scan of every record would, unless it combines a state id with a wildcard |
| Answers.WildcardLooksAtOneState | src/engine.cpp:405-410 | With that combination it agrees with the scan if and only if nothing of another state is in scope |
| Witnesses.WildcardMissesOtherStates | include/stateindex/query.hpp:94-95 | A run and such a query for which the answer over the run's own indexes misses what a scan finds |
| AnswersAlongRuns.ReachableIndexAgreesWithScan | src/engine.cpp:405-421 | The agreement holds in every reachable state with the indexes as the run left them |
| AnswersAlongRuns.RecoveryKeepsAnswersAlongRuns | src/engine.cpp:879-973 | A save and load anywhere in a run changes no answer to any query but freshness factors and the order they give |
| RecoveredAnswers.RecoveryPreservesAnswers | src/engine.cpp:454-780 | After recovery every query has the same candidates, placements, eliminations with reasons and outcome |
| Persistence.DigestIgnoresUnhashed | include/stateindex/record.hpp:115-163 | The record digest reads neither the stored digest nor the fields that are not persisted |
| Persistence.SavedImageLoads | src/engine.cpp:835-946 | A saved image is readable if and only if it is within the loader's bounds, no state has two records of one generation and every digest matches; it then reads back as saved, whatever order the tombstones were written in |
| Persistence.LoadGivesRecovered | src/engine.cpp:879-973 | Loading it gives the recovered form of the saved state and no other |
| Persistence.RecoveryIdempotent | src/engine.cpp:950-971 | A second save and load changes nothing but the registry |
| Persistence.ReachableImageLoads | src/engine.cpp:835-973 | Every reachable state within the bounds with one record per generation saves to an image that loads to its recovered form |
| LoadFacts.LoadedIsConsistent | src/engine.cpp:906-972 | Whatever image is loaded, histories, current map and digests are consistent |
| Image.ContentsReadBack | src/engine.cpp:838-848 | A written payload reads back, leaving exactly the tail, if and only if it is within the loader's bounds |
| Image.ImageOpens | src/engine.cpp:850-859 | Every written image opens to its payload |
| Image.DamagedPayloadIsRefused | src/engine.cpp:895-904 | A change of the payload within four consecutive bytes is always refused |
| Image.AlteredImageByte | src/engine.cpp:882-904 | One altered byte is refused everywhere but in the two reserved bytes, which are ignored |
| Image.WriteImage | src/engine.cpp:850-859 | The image bytes of a payload |
| Image.ReadEnvelope | src/engine.cpp:882-904 | Opens an image or reports the first test that fails |
| LedgerCodec.InvalidationRoundTrip | include/stateindex/invalidation.hpp:36-73 | Parsing undoes printing for invalidation records and leaves the tail |
| LedgerCodec.TombstoneRoundTrip | include/stateindex/invalidation.hpp:90-113 | Parsing undoes printing for tombstone records and leaves the tail |
| LedgerCodec.AccountingRoundTrip | include/stateindex/accounting.hpp:52-73 | Parsing undoes printing for counters that fit in 64 bits |
| LedgerCodec.SerializeInvalidation | include/stateindex/invalidation.hpp:36-53 | Appends exactly the record's bytes |
| LedgerCodec.DeserializeInvalidation | include/stateindex/invalidation.hpp:54-73 | Reads exactly what the parser reads, or fails with it |
| LedgerCodec.SerializeTombstone | include/stateindex/invalidation.hpp:90-100 | Appends exactly the record's bytes |
| LedgerCodec.DeserializeTombstone | include/stateindex/invalidation.hpp:101-113 | Reads exactly what the parser reads, or fails with it |
| LedgerCodec.SerializeAccounting | include/stateindex/accounting.hpp:52-61 | Appends exactly the counters' bytes |
| LedgerCodec.DeserializeAccounting | include/stateindex/accounting.hpp:62-73 | Reads exactly what the parser reads, or fails with it |
| ByteBuf.EndianRoundTrip | include/stateindex/bytebuf.hpp:35-46 | Little-endian bytes of a number that fits read back to it |
| ByteBuf.EndianSurjective | include/stateindex/bytebuf.hpp:83-102 | Every byte string is the little-endian form of exactly the number it reads as |
| ByteBuf.TextRoundTrip | include/stateindex/bytebuf.hpp:54-57 | A length-prefixed string reads back with exactly the tail left |
| ByteBuf.ScalarsRoundTrip | include/stateindex/bytebuf.hpp:34-103 | Every scalar reads back with exactly the tail left |
| ByteBuf.ByteWriter.PushNumber | include/stateindex/bytebuf.hpp:35-46 | The shifting loop appends the little-endian bytes |
| ByteBuf.ByteWriter.PushString | include/stateindex/bytebuf.hpp:54-57 | Appends length and bytes |
| ByteBuf.ByteReader.ReadNumber | include/stateindex/bytebuf.hpp:83-102 | The accumulating loop reads the number and moves past it, or fails without enough bytes |
| ByteBuf.ByteReader.ReadString | include/stateindex/bytebuf.hpp:110-117 | Reads a string, or fails if its length exceeds the rest |
| RecordCodec.RecordRoundTrip | include/stateindex/record.hpp:81-157 | Reading a serialized record followed by any tail gives the record without its unpersisted fields and exactly the tail |
| RecordCodec.RecordFormatInjective | include/stateindex/record.hpp:81-111 | Records that differ in a persisted field differ in their bytes |
| RecordCodec.CompatibilityRoundTrip | include/stateindex/refs.hpp:43-60 | Parsing undoes printing for compatibility references |
| RecordCodec.ProvenanceRoundTrip | include/stateindex/refs.hpp:74-93 | Parsing undoes printing for provenance references |
| RecordCodec.DependencyRoundTrip | include/stateindex/refs.hpp:106-123 | Parsing undoes printing for dependency references |
| RecordCodec.LocationRoundTrip | include/stateindex/location.hpp:56-111 | Parsing undoes printing for locations, but for the process handle and scope |
| RecordCodec.BoundedReadsBack | include/stateindex/record.hpp:139-144 | A counted list reads back if and only if it is within its bound |
| Image.UnfitRecordIsRefused | include/stateindex/record.hpp:139-144 | A record over a bound is written but does not read back |
| Layouts.RecordLayout | include/stateindex/record.hpp:81-111 | A record is its fields in the stated order at the stated widths in base-256 digits, optional parts behind a flag and lists behind their counts, and nothing else |
| Layouts.LocationLayout | include/stateindex/location.hpp:56-82 | The same for a location |
| Layouts.InvalidationLayout | include/stateindex/invalidation.hpp:36-53 | The same for an invalidation |
| Layouts.TombstoneLayout | include/stateindex/invalidation.hpp:90-100 | The same for a tombstone |
| Layouts.AccountingLayout | include/stateindex/accounting.hpp:52-61 | The same for the counters |
| Layouts.QueryLayout | include/stateindex/query.hpp:121-148 | The same for a query, its cost limit as whole thousandths |
| Layouts.ContentsLayout | src/engine.cpp:838-848 | The payload of an image: counted records, invalidations and tombstones, the epoch, the invalidation number and the counters |
| Layouts.ImageLayout | src/engine.cpp:850-859 | The image file: magic number, version 1, two zero bytes, payload, checksum, digest |
| Layouts.EnvelopeMeaning | src/engine.cpp:882-904 | Exactly when each refusal of an image is given, on its bytes |
| Layouts.FrameLayout | include/stateindex/protocol.hpp:87-100 | A frame: magic number, version 1, kind, length, checksum of these and the payload, four zero bytes, payload |
| Layouts.RefusalMeaning | include/stateindex/protocol.hpp:107-135 | Exactly when each refusal of a frame is given, on its bytes |
| Layouts.HexMeaning | include/stateindex/digest.hpp:110-119 | Two lower-case digits for every byte, the higher half first |
| Layouts.DigestLayout | include/stateindex/record.hpp:115-163 | The record digest is taken over the record's bytes with the digest field empty |
| RecordIO.SerializeRecord | include/stateindex/record.hpp:81-111 | Appends exactly the record's bytes |
| RecordIO.DeserializeRecord | include/stateindex/record.hpp:125-157 | Reads exactly what the parser reads, or fails with it |
| RecordIO.CanonicalWithoutDigest | include/stateindex/record.hpp:115-123 | The record's bytes with an empty digest |
| RecordIO.ComputeSemanticDigest | include/stateindex/record.hpp:160-163 | The hexadecimal digest of those bytes |
| RecordIO.DigestIgnoresUnpersisted | include/stateindex/record.hpp:115-163 | A record and what is read back of it have the same digest |
| QueryCodec.QueryReadsBack | include/stateindex/query.hpp:121-180 | A written query reads back with its cost limit cut to thousandths if and only if its lists are within bounds |
| QueryCodec.QueryRoundTrip | include/stateindex/query.hpp:121-180 | A query comes back unchanged if and only if its lists are within bounds and its cost limit is a whole number of thousandths |
| QueryCodec.CostRoundTrip | include/stateindex/query.hpp:140-170 | A cost comes back exactly if and only if it is a whole number of thousandths, and otherwise loses less than one |
| QueryIO.SerializeQuery | include/stateindex/query.hpp:121-148 | Appends exactly the query's bytes |
| QueryIO.DeserializeQuery | include/stateindex/query.hpp:149-180 | Reads exactly what the parser reads, or fails with it |
| Crc.MakeTable | include/stateindex/digest.hpp:18-27 | The table holds, for every byte, eight bit steps of it |
| Crc.FeedByTable | include/stateindex/digest.hpp:28-31 | One table lookup per byte computes the bit-at-a-time register |
| Crc.ComputeCrc32 | include/stateindex/digest.hpp:16-32 | The table-driven checksum is the bit-at-a-time one |
| Crc.ComputeCrc32OverTwo | include/stateindex/protocol.hpp:67-83 | The checksum over two ranges is that of their concatenation |
| Crc.BurstChangesCrc | include/stateindex/digest.hpp:16-32 | With the bytes around it fixed, a stretch of at most four bytes gives the same checksum if and only if it is the same |
| Polynomial.CrcIsRemainder | include/stateindex/digest.hpp:16-32 | A number is the checksum of a message if and only if, complemented and read as a polynomial over GF(2), it is the remainder of the message with its first 32 bits complemented, times x^32, modulo the generator with exponents 32, 26, 23, 22, 16, 12, 11, 10, 8, 7, 5, 4, 2, 1 and 0 |
| Polynomial.RemainderIsUnique | include/stateindex/digest.hpp:16-32 | A polynomial has at most one such remainder, so the statement determines the checksum |
| Frame.DecodesExactlyEncodings | include/stateindex/protocol.hpp:87-135 | A byte string decodes to a frame if and only if it is that frame's encoding, up to the four reserved bytes, and the frame may be sent |
| Frame.FrameRoundTrip | include/stateindex/protocol.hpp:87-135 | A frame comes back from its encoding if and only if its kind is known and its payload at most 64 MiB |
| Frame.BurstIsDetected | include/stateindex/protocol.hpp:125-126 | A change of the covered bytes within four consecutive ones is never accepted |
| Frame.ChecksumChangeIsDetected | include/stateindex/protocol.hpp:117-126 | A change of the checksum field alone is never accepted |
| Frame.AlteredByte | include/stateindex/protocol.hpp:107-135 | One altered byte is refused everywhere but in the reserved bytes, where it is ignored |
| Frame.Encode | include/stateindex/protocol.hpp:87-100 | The buffer-driven encoder yields the encoding |
| Frame.Decode | include/stateindex/protocol.hpp:107-135 | The cursor-driven decoder decodes, with the error of the first test that fails |

## Left out

- Sockets, processes, the command line and worker scripts: only the steps they trigger are modelled.
- Files: `save` and `load` produce and consume bytes; the temporary file and rename are not modelled.
- Locking: every public call is one atomic step.
- SHA-256 rounds: a parameter, as said above.
- IEEE rounding, infinities and NaN: costs are reals; the inverse of a cost of minus one, which no
  estimate holds, is given the value zero.
- Reason strings, notes, summaries, `explain_*`, `to_string` and the metadata copied into a result for
  the selected record: presentation only.
- `historical_mode_` is a parameter of a query instead of a field, since every query sets it first.
- `can_transition`: the engine never calls it.
- `boot_high_water_` and `worker_incarnation_`: no decision reads them.
- The tokens of `MutationEnvelope` that no decision reads, its codec, and the codec of query results.
- Counters do not wrap at 64 bits: they are unbounded, and an image can hold them when they fit. The
  invalidation sequence number and the epoch do wrap.
- The sixteen index maps are one map whose keys say which index they belong to.
- Hash tables iterate in any order: loops over them pick any remaining key, and results are proved not to depend on it.
- The library sorts are insertion sorts with the same comparison; `canonical_records` collects ids, sorts
  them and then reads the records.
- Fields of a record that nothing changes after publication are grouped in one descriptor.
- The factor vector is written as a list of its fourteen entries instead of a loop over a switch.
- Engine.StateIndexEngine.Load: does not say how much of the invalidations, tombstones and counters is in the tables
  after contents are refused behind an intact envelope.
- Calls on an engine that a publication or tombstone outside these promises has left unsound are not specified.
- Retirement.RecoverKeepsInv: is about images of sound engines; LoadFacts.LoadedIsConsistent says what holds of any image.
