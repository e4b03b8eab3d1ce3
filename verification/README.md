# Trax IO: a verified model

This project models the parts of Trax IO, a spare-parts planning system, whose correctness cannot
be seen from examples, and proves what they are for. `dafny verify dfyconfig.toml` checks it all.

- **Online publication** (`OnlineKeys`, `OnlineTable`, `OnlineProtocol`, `OnlineGuarantees`,
  `OnlineStore`, `OnlineWriter`). Writers stage feature bundles under an invisible generation in a
  shared table and swing one pointer per tenant by compare-and-swap; readers pin a generation and
  page through it. Any number of `populate_online` runs is a state machine over atomic requests,
  with failures at any step and an inductive invariant. The store and writer classes are methods
  whose contracts quantify over everything other processes do between their requests, and say
  exactly when a run commits. The string
  keys are proved injective and decodable.
- **Repair returns** (`RepairSurvival`, `RepairProjection`). The Kaplan-Meier loop, the
  age-conditioned return probability and the projection with its variance and interval, over reals.
- **The feature lake** (`FeatureLake`). Tables are growing sequences of rows; a reader is pinned to
  a run of the ledger. Reads are compared with the in-memory store of `client.py`.
- **Event delivery** (`EventDelivery`). The publisher's retry loop against the write-once endpoint,
  over a network that loses requests or replies.
- **Stripe webhook** (`StripeSync`, `StripeWebhook`). `applyEvent` one database call at a time, and
  the insert, apply, undo ledger under concurrent duplicate deliveries.
- **Snapshots** (`Snapshot`). Dump and load of the feature store, with object sharing.
- **Fingerprints** (`JsonText`, `Fingerprint`, `FingerprintOrder`, `ScenarioInputs`). The canonical
  form of nested data, the JSON text it is sorted and hashed by, and what the hash tells apart.
- **Decimal text** (`DecimalText`, `PlanningForm`, `CandidateView`). Arithmetic on digit strings of
  any length in the web application.
- **Peer priors** (`EmpiricalBayes`, `PeerPriors`). The coarsening group index and the shrinkage
  estimate it feeds, over reals.

`Wrappers`, `Ordering`, `Stability`, `Sequences`, `Filtering`, `Reals` and `PythonText` hold what
these share.

Where the code falls short of its documentation, the exact condition is proved:

- Return probabilities chain across horizons except at the survival floor (`ProbabilitiesChain`,
  `ChainBreaksAtTheFloor`).
- Reads pinned to a run are stable except when the run's batch was completed without an ingestion
  stamp (`PinnedReadsStableIffStamped`, `UnstampedExample`).
- A lake read takes the first row for a key and the in-memory store the last one, so they agree
  exactly when these are the same (`ReadsLikeInMemoryStore`), and append order shows exactly when
  the rows for the key differ (`AppendOrderIsIrrelevantIff`, `TwoRowExample`). The comment on
  `iter_inference_keys` promises any stock row; the code lists only the serving batch, and so does
  the model.
- A snapshot round trip needs every bucket to hold models of its own class, which `seed` does not
  check (`RoundTrip`, `MisfiledExample`).
- The fingerprint depends on insertion order when two keys of a mapping have the same text
  (`OrderIgnoredIffNoClash`, `ClashExample`), and it cannot tell `(pn, location)` from
  `(location, pn)` in the key universe (`SwappedKeyIsNotSeen`).
- A typed minus zero and zero have different normal forms (`NormalizeDecides`, `MinusZeroDiffers`),
  floors and tiers that the collation cannot tell apart keep their order in the signature
  (`FloorOrderIgnoredIff`, `TierOrderIgnoredIff`, `AssumptionSignatureIff`, `FloorsCanTie`), and a
  key has its label to itself exactly without an `@` in part number and location
  (`LabelUnmistakableIff`, `LabelsCollide`).
- A failed undo loses the Stripe event for good (`FailedUndoLosesTheEvent`), as `index.ts` says.
- The fitted prior matches the sample's moments exactly when no floor acts (`FitMatchesMoments`,
  `ClampedSample`).
- The predictive variance is at least the rate exactly when the evidence is not negative
  (`PredictiveVarianceIsWider`, `NegativeEvidenceIsNarrower`), and a peer group without any
  exposure can still decide; the uninformed prior is served exactly for such a group or for a fit
  at its floor (`UnexposedGroupDecides`, `UnexposedExample`).

## Model

| member | source | states |
|---|---|---|
| OnlineKeys.SortKeyInjective | services/feature-store/src/trax_io_feature_store/online_store.py:47-55 | the length-prefixed key text is the same only for the same part number and location, whatever `#` or digits they contain |
| OnlineKeys.DecodeInvertsEncode | services/feature-store/src/trax_io_feature_store/online_store.py:58-74 | the decoder accepts exactly the encodings of two non-empty strings and returns them |
| OnlineKeys.PrefixSelectsGeneration | services/feature-store/src/trax_io_feature_store/online_store.py:83-88 | a bundle key falls under a generation's query prefix exactly when it belongs to that generation, although one generation id may be a prefix of another |
| OnlineKeys.BundleSortKeyInjective | services/feature-store/src/trax_io_feature_store/online_store.py:87-88 | bundle keys of valid generations never collide |
| OnlineKeys.PointerIsNoBundleKey | services/feature-store/src/trax_io_feature_store/online_store.py:24-25 | no bundle key is the pointer's key and no prefix query returns the pointer |
| OnlineKeys.DecodeBundleInvertsEncode | services/feature-store/src/trax_io_feature_store/online_store.py:91-97 | decoding under a generation inverts that generation's bundle keys and refuses every other text |
| OnlineKeys.HexIsValid | services/feature-store/src/trax_io_feature_store/online_store.py:173-173 | every hexadecimal uuid is a valid generation |
| OnlineKeys.GenerationCodes | services/feature-store/src/trax_io_feature_store/online_store.py:26-26 | a generation is one to 128 letters and digits, and after the first character also - . _ |
| OnlineProtocol.StepKeepsInv | services/feature-store/src/trax_io_feature_store/online_writer.py:122-165 | every launch, begin, put, commit, failure or crash of any run keeps the invariant of table, runs, commit history and pointers |
| OnlineProtocol.LegalKeepsInv | services/feature-store/src/trax_io_feature_store/online_writer.py:122-165 | the invariant holds after any interleaving of any number of runs |
| OnlineProtocol.NextKeyIsAbsent | services/feature-store/src/trax_io_feature_store/online_store.py:196-212 | in a reachable state the absent-key condition of a run's next put is met, whatever others staged |
| OnlineProtocol.CommitSucceedsIff | services/feature-store/src/trax_io_feature_store/online_store.py:234-254 | the compare-and-swap succeeds exactly when the tenant's newest committed generation is still the stage's base |
| OnlineProtocol.PointerReadsNewest | services/feature-store/src/trax_io_feature_store/online_store.py:107-153 | the pointer read never errors in a reachable state and yields generation and key count of the run committed last |
| OnlineGuarantees.CommittedRangeIsOneRun | services/feature-store/src/trax_io_feature_store/online_writer.py:122-165 | the keys stored under a committed generation decode to exactly the keys of the run that committed it, as many as the pointer's count |
| OnlineGuarantees.CommittedReads | services/feature-store/src/trax_io_feature_store/online_store.py:352-401 | every key of the committing run reads back the bundle that run staged and every other key misses |
| OnlineGuarantees.PinnedReadsAreStable | services/feature-store/src/trax_io_feature_store/online_store.py:293-401 | whatever others do next, a committed generation keeps its token, its key range and every bundle read |
| OnlineGuarantees.OneCommitPerBase | services/feature-store/src/trax_io_feature_store/online_store.py:234-254 | of all stages begun from the same base pointer at most one ever commits |
| OnlineGuarantees.PointersFormOneChain | services/feature-store/src/trax_io_feature_store/online_store.py:166-179 | a tenant's commits form one chain: each stage's previous generation is its predecessor, and no generation repeats |
| OnlineGuarantees.HeadTellsHistory | services/feature-store/src/trax_io_feature_store/online_store.py:234-254 | the pointer's generation is the same before and after any further actions exactly when nobody has committed for the tenant in between, so the compare-and-swap cannot be fooled by a generation that came back |
| OnlineTable.PutNeverOverwrites | services/feature-store/src/trax_io_feature_store/online_store.py:196-212 | a put under a key that exists changes nothing and is refused |
| OnlineTable.PutPointerCompares | services/feature-store/src/trax_io_feature_store/online_store.py:234-254 | the pointer is swung exactly if it still is what the stage was begun from, and otherwise left alone |
| OnlineGuarantees.ErasureSimulates | services/feature-store/src/trax_io_feature_store/online_writer.py:122-160 | removing an uncommitted run's actions from any history gives the same state without that run's own rows |
| OnlineGuarantees.FailedRunIsInvisible | services/feature-store/src/trax_io_feature_store/online_writer.py:122-160 | a run that fails before or at commit changes no pointer, no other run and no read of any other generation |
| OnlineStore.DynamoTable.PutItem | services/feature-store/src/trax_io_feature_store/online_store.py:196-212 | a conditional put either happens atomically or leaves the table alone |
| OnlineStore.DynamoTable.Query | services/feature-store/src/trax_io_feature_store/online_store.py:326-343 | a page is the next matches in key order, and the continuation key splits what was returned from what remains |
| OnlineStore.DynamoDbOnlineStore.CurrentGeneration | services/feature-store/src/trax_io_feature_store/online_store.py:155-164 | returns the stored pointer or fails when it is absent or malformed |
| OnlineStore.DynamoDbOnlineStore.BeginPopulation | services/feature-store/src/trax_io_feature_store/online_store.py:166-179 | in every reachable state the stage's base is the generation of the tenant's last commit, none before the first, and the read never fails; on any table it fails exactly for a malformed pointer item |
| OnlineStore.DynamoDbOnlineStore.PutBundle | services/feature-store/src/trax_io_feature_store/online_store.py:181-212 | stages the bundle if its key is absent, and otherwise fails without effect; a foreign tenant or bad generation is refused first |
| OnlineStore.DynamoDbOnlineStore.CommitPopulation | services/feature-store/src/trax_io_feature_store/online_store.py:214-259 | validates the stage, then swings the pointer if it still is the base, and otherwise fails without effect |
| OnlineStore.DynamoDbOnlineStore.ResolveGeneration | services/feature-store/src/trax_io_feature_store/online_store.py:262-291 | a given token is accepted exactly when it is the tenant's and well formed; in every reachable state whatever denotes a committed population resolves to its token, and without a token nothing resolves exactly before the first commit |
| OnlineStore.DynamoDbOnlineStore.IterKeys | services/feature-store/src/trax_io_feature_store/online_store.py:293-350 | with any writer steps between the pages, a token of a committed run yields exactly that run's sorted keys and never the count error; an accepted answer always has the token's count |
| OnlineStore.DynamoDbOnlineStore.GetBundle | services/feature-store/src/trax_io_feature_store/online_store.py:352-401 | with others acting between pointer and item read, yields the pinned run's bundle and misses exactly the keys it did not stage |
| OnlineStore.WholeRangeDecodes | services/feature-store/src/trax_io_feature_store/online_store.py:327-344 | the full range of a committed generation decodes to the run's key set, without duplicates |
| OnlineStore.TakeSnapshot | services/feature-store/src/trax_io_feature_store/online_runtime.py:53-59 | the snapshot succeeds exactly when something is committed, and pairs the current token with that run's complete sorted keys although others act in between |
| OnlineWriter.NormalizeKeys | services/feature-store/src/trax_io_feature_store/online_writer.py:78-86 | accepts exactly pairs of non-empty strings and returns the distinct keys |
| OnlineWriter.Preflight | services/feature-store/src/trax_io_feature_store/online_writer.py:88-101 | for every named key with the required groups and for no other, one bundle in key order with the groups and the body the offline store has for that very part number and location; skipped are exactly the others |
| OnlineWriter.CountOversized | services/feature-store/src/trax_io_feature_store/online_writer.py:103-120 | counts exactly the complete keys whose bundle would exceed the safe item size |
| OnlineWriter.OversizedIff | services/feature-store/src/trax_io_feature_store/online_writer.py:51-64 | a bundle is refused exactly when the UTF-8 bytes of tenant, part number, location and body, with 184 for the rest, exceed 390 KiB |
| OnlineWriter.Utf8CharDecodes | services/feature-store/src/trax_io_feature_store/online_writer.py:51-64 | the byte count is that of the UTF-8 encoding: every character has one to four bytes that give it back |
| OnlineWriter.StageAll | services/feature-store/src/trax_io_feature_store/online_writer.py:122-143 | stages the bundles in order among other runs; it stops at the first put whose own request fails, with that fault and that many bundles staged, and at no other put |
| OnlineWriter.Publish | services/feature-store/src/trax_io_feature_store/online_writer.py:122-165 | a failed pointer read is raised; otherwise the run commits exactly its bundles if and only if none of its requests fails and nobody commits for the tenant between its begin and its commit, and else its first failed request or the lost race is counted |
| OnlineWriter.PopulateOnline | services/feature-store/src/trax_io_feature_store/online_writer.py:67-165 | a bad key, an oversized bundle and a failed pointer read each give exactly their outcome, the first two without touching the table; otherwise the run commits, for every named key with the required groups, the offline groups and body of that very key, if and only if none of its requests fails and nobody commits for the tenant in between; written, skipped and the two failure counts are fixed in every case |
| OnlineWriter.UncontestedRunCommits | services/feature-store/src/trax_io_feature_store/online_writer.py:122-165 | where no other process wants to commit, a run whose requests all go through does commit |
| RepairSurvival.KaplanMeier | services/recommendation-engine/src/trax_io_reco/repair_returns.py:58-70 | one step per distinct completed duration in increasing order, each multiplying the curve by the fraction of the units at risk, completed and open ages as given, that do not complete then |
| RepairSurvival.SurvivalAt | services/recommendation-engine/src/trax_io_reco/repair_returns.py:72-78 | scanning the steps returns the value of the last step not after the day |
| RepairSurvival.KaplanMeierBounds | services/recommendation-engine/src/trax_io_reco/repair_returns.py:53-78 | for every day the curve lies between the fraction of observations after it and one minus the fraction completed by it |
| RepairSurvival.KaplanMeierCountsOpenUnits | services/recommendation-engine/src/trax_io_reco/repair_returns.py:58-78 | on the ages as given the curve never falls below the fraction of all units seen after the day, open ones included |
| RepairSurvival.KaplanMeierIsEmpirical | services/recommendation-engine/src/trax_io_reco/repair_returns.py:53-78 | without censored ages the curve is the empirical fraction of durations above the day |
| RepairSurvival.KaplanMeierIsSurvivalCurve | services/recommendation-engine/src/trax_io_reco/repair_returns.py:53-78 | the curve stays in the unit interval and never rises |
| RepairSurvival.ReturnProbabilityIsConditional | services/recommendation-engine/src/trax_io_reco/repair_returns.py:182-201 | for any survival curve the probability is in the unit interval and, above the floor, exactly the conditional one, so the clamp never acts |
| RepairSurvival.LongerHorizonReturnsMore | services/recommendation-engine/src/trax_io_reco/repair_returns.py:182-201 | a longer horizon never lowers the probability |
| RepairSurvival.SlowerTurnaroundReturnsLess | services/recommendation-engine/src/trax_io_reco/repair_returns.py:194-201 | a larger turn-around multiplier never raises the probability |
| RepairSurvival.ProbabilitiesChain | services/recommendation-engine/src/trax_io_reco/repair_returns.py:182-201 | with multiplier one, staying out for two stretches composes to the whole exactly when the curve at the middle age is above the floor or has nothing more to lose |
| RepairSurvival.ChainBreaksAtTheFloor | services/recommendation-engine/src/trax_io_reco/repair_returns.py:192-193 | a survival curve for which the floor breaks the chain |
| RepairProjection.CleanDurations | services/recommendation-engine/src/trax_io_reco/repair_returns.py:44-50 | the non-negative durations, each as often as given, in order |
| RepairProjection.SelectModel | services/recommendation-engine/src/trax_io_reco/repair_returns.py:158-179 | the Kaplan-Meier estimate of the completed cycles and the ages given when there are completed cycles, else what repair evidence alone calls for |
| RepairProjection.FallbackModelFits | services/recommendation-engine/src/trax_io_reco/repair_returns.py:87-179 | without cycles the lognormal curve exactly for repair evidence of known origin with 0 < median < p90, the promise exactly for such evidence without such quantiles and a positive promise, and none otherwise |
| RepairProjection.CensoredAgesCount | services/recommendation-engine/src/trax_io_reco/repair_returns.py:229-233 | the censored ages in any range are as many as the eligible units of the positions whose age lies there |
| RepairProjection.SelectedModelIsSurvivalCurve | services/recommendation-engine/src/trax_io_reco/repair_returns.py:94-179 | whichever model is selected, its survival function is a survival curve |
| RepairProjection.CauchySchwarz | services/recommendation-engine/src/trax_io_reco/repair_returns.py:252-257 | the square of the expected units is at most the eligible units times the sum of squared probabilities, for any number of lines |
| RepairProjection.SpreadCapsVariance | services/recommendation-engine/src/trax_io_reco/repair_returns.py:252-257 | the variance is at most E*(1 - E/Q) |
| RepairProjection.ProjectHorizon | services/recommendation-engine/src/trax_io_reco/repair_returns.py:241-286 | one item per line in order; expected units and variance are their sums; variance at most E*(1-E/Q) and 0 <= p10 <= E <= p90 <= Q |
| RepairProjection.ItemForFits | services/recommendation-engine/src/trax_io_reco/repair_returns.py:182-270 | an item has its position's keys, quantity and age; its return probability is the conditional one of the model, certain or nil for a promise and nil without evidence; times the yield it is the serviceable one, and times the quantity the expected units |
| RepairProjection.LongerHorizonExpectsMore | services/recommendation-engine/src/trax_io_reco/repair_returns.py:240-270 | expected units never fall with the horizon |
| RepairProjection.SlowerTurnaroundExpectsLess | services/recommendation-engine/src/trax_io_reco/repair_returns.py:194-201 | a slower turn-around never raises expected units |
| RepairProjection.NormalizeHorizons | services/recommendation-engine/src/trax_io_reco/repair_returns.py:224-224 | the distinct horizons in increasing order |
| RepairProjection.ProjectAll | services/recommendation-engine/src/trax_io_reco/repair_returns.py:240-286 | one reconciled result per horizon, expected units rising along them |
| RepairProjection.ProjectRepairReturns | services/recommendation-engine/src/trax_io_reco/repair_returns.py:204-326 | each argument error exactly when the source raises it, in its order; otherwise the model that cycles, open units or repair evidence call for, and one result per distinct horizon whose items, sums, variance and band of 1.28 standard deviations are written out; nothing is expected without cycles and repair evidence |
| RepairProjection.NoEvidenceNoReturns | services/recommendation-engine/src/trax_io_reco/repair_returns.py:145-155 | with the unavailable model nothing is expected to return |
| RepairProjection.OneAgePerUnit | services/recommendation-engine/src/trax_io_reco/repair_returns.py:229-233 | the censored ages are one observation per eligible unit |
| FeatureLake.PinningKeepsTheRunStatus | services/feature-store/src/trax_io_feature_store/iceberg_store.py:217-249 | pinning the latest run does not change what the ledger says at that moment |
| FeatureLake.LatestRunStatusIff | services/feature-store/src/trax_io_feature_store/iceberg_store.py:156-215 | the ledger says nothing exactly without a row of the tenant, gives a status exactly when the newest rows that concern the reader agree on one well-formed payload, and the status is that of such a row |
| FeatureLake.PinLatestRunIff | services/feature-store/src/trax_io_feature_store/iceberg_store.py:217-249 | an unpinned reader stays unpinned exactly without a ledger row of the tenant; with one it is pinned, exactly when the ledger resolves to a named run, to the run of a row that no other is newer than |
| FeatureLake.LedgerGrowthKeepsStatus | services/feature-store/src/trax_io_feature_store/iceberg_store.py:156-215 | ledger rows of other runs do not change a pinned reader's status |
| FeatureLake.GrowthKeepsServingCutoff | services/feature-store/src/trax_io_feature_store/iceberg_store.py:329-406 | appends by other runs and batch rows of any status but completed leave the pinned run's serving batch in place |
| FeatureLake.PinnedReadIsStable | services/feature-store/src/trax_io_feature_store/iceberg_store.py:408-482 | a pinned read returns the same rows after any foreign growth of ledger, batch table and feature tables, given the run's batch is stamped |
| FeatureLake.PinnedKeysAreStable | services/feature-store/src/trax_io_feature_store/iceberg_store.py:489-555 | so are the inference keys of a pinned reader |
| FeatureLake.PinnedRunIsRecorded | services/feature-store/src/trax_io_feature_store/iceberg_store.py:217-249 | with a ledger row of the tenant a successful pin names a run, and that run is on the ledger |
| FeatureLake.PinningFreezesReads | services/feature-store/src/trax_io_feature_store/iceberg_store.py:217-482 | with a ledger row of the tenant the reader is pinned, and after any foreign growth it reads what the unpinned client read when it was pinned, unless that batch is unstamped |
| FeatureLake.UnstampedBatchAdmitsForeignRows | services/feature-store/src/trax_io_feature_store/iceberg_store.py:549-554 | a completed batch without a stamp lets a later row of the same date into a pinned read |
| FeatureLake.PinnedReadsStableIffStamped | services/feature-store/src/trax_io_feature_store/iceberg_store.py:408-482 | pinned reads of a group survive every foreign growth exactly when the run's batch is stamped or serves nothing |
| FeatureLake.UnstampedExample | services/feature-store/src/trax_io_feature_store/iceberg_store.py:395-406 | a lake of one ledger row with any text of a full status payload, one completed batch without a stamp and one feature row serves it unstamped |
| FeatureLake.LatestRowsAreNewest | services/feature-store/src/trax_io_feature_store/iceberg_store.py:167-184 | the ledger rows that count are exactly those no other row of the run or tenant is newer than in (date, stamp) order |
| FeatureLake.CommittedCutoffIsNewest | services/feature-store/src/trax_io_feature_store/iceberg_store.py:356-406 | a serving batch is found exactly when the run has a completed batch and all its newest ones agree on stamp and row count, and it is that one |
| FeatureLake.LedgerReadIff | services/feature-store/src/trax_io_feature_store/iceberg_store.py:329-482 | through the ledger a read succeeds exactly when the sources of the group succeeded, the newest completed batches of the run agree on a stamp and a positive row count, and there are such rows for the key; and it returns precisely those |
| FeatureLake.RequiredIff | services/feature-store/src/trax_io_feature_store/iceberg_store.py:58-72 | the source domains each feature group cannot do without |
| FeatureLake.CutoffSelectsNewest | services/feature-store/src/trax_io_feature_store/iceberg_store.py:286-327 | the computed cutoff selects exactly the tenant's lexicographically newest (date, stamp) batch |
| FeatureLake.ScanIsNewestBatch | services/feature-store/src/trax_io_feature_store/iceberg_store.py:408-482 | without a ledger the scan is the newest batch narrowed to the key |
| FeatureLake.FetchIsLastMatch | services/feature-store/src/trax_io_feature_store/client.py:171-188 | the seeded in-memory store returns the last row seeded under the key |
| FeatureLake.ReadsLikeInMemoryStore | services/feature-store/src/trax_io_feature_store/iceberg_store.py:484-487 | a read agrees with the in-memory store seeded from the newest batch exactly when the batch's first and last row for the key are the same |
| FeatureLake.NewestBatchIgnoresOrder | services/feature-store/src/trax_io_feature_store/iceberg_store.py:286-327 | the newest batch does not depend on append order |
| FeatureLake.AppendOrderIsIrrelevantIff | services/feature-store/src/trax_io_feature_store/iceberg_store.py:408-487 | a read returns the same row for every append order of the table exactly when all rows of the newest batch for the key agree |
| FeatureLake.TwoRowExample | services/feature-store/src/trax_io_feature_store/iceberg_store.py:484-487 | two stock rows for one part and location are read according to their order, and the in-memory store keeps the other one |
| FeatureLake.InferenceKeysAreReadable | services/feature-store/src/trax_io_feature_store/iceberg_store.py:489-555 | a key is listed exactly when the scan of stock finds a row for it |
| EventDelivery.IngestIsWriteOnce | services/event-publisher/src/trax_io_event_publisher/endpoint.py:21-44 | the log only grows and never overwrites; 202 or 409 exactly for valid, well-addressed, unlimited events, and then the key is filed |
| EventDelivery.ReplayedOnce | services/event-publisher/src/trax_io_event_publisher/endpoint.py:46-53 | an event filed under its key is replayed exactly once |
| EventDelivery.Endpoint.Ingest | services/event-publisher/src/trax_io_event_publisher/endpoint.py:21-44 | each of the five codes exactly in its case, in the order of the checks; the event is appended exactly with 202 |
| EventDelivery.Endpoint.Replay | services/event-publisher/src/trax_io_event_publisher/endpoint.py:46-53 | the tenant's events, all of them and no others, in order of acceptance |
| EventDelivery.EventPublisher.Send | services/event-publisher/src/trax_io_event_publisher/publisher.py:54-66 | over a network that may lose request or reply, a success code means the endpoint has filed the key |
| EventDelivery.EventPublisher.Publish | services/event-publisher/src/trax_io_event_publisher/publisher.py:49-71 | one post per attempt in order and so at most the allowed number; the first deciding attempt settles the outcome, its code is reported and every wait is the one called for; emitted with no dead letter, or one dead letter with its reason; emitted with a unique id means the endpoint holds this very event |
| EventDelivery.WaitsAre | services/event-publisher/src/trax_io_event_publisher/publisher.py:55-80 | the sleep after each attempt is the hint of a 429 and otherwise the entry of the backoff table for that attempt, or its last |
| EventDelivery.CollidingIdIsDropped | services/event-publisher/src/trax_io_event_publisher/endpoint.py:40-43 | without unique ids a different event with the same id is answered 409 and never replayed |
| StripeSync.SubscriptionOutcome | supabase/functions/stripe-webhook/sync.ts:49-136 | the whole effect of a resolvable subscription event: the mirrored row and the patched tenant, or a refused write |
| StripeSync.ResolvesToItsTenant | supabase/functions/stripe-webhook/sync.ts:51-76 | a subscription belongs to the tenant its metadata names, and without one to the tenant with its customer |
| StripeSync.SubscriptionWrites | supabase/functions/stripe-webhook/sync.ts:49-136 | column by column what the mirrored subscription and the patched tenant hold; refused exactly for an unknown tenant or price; nothing without a tenant |
| StripeSync.ProductWrites | supabase/functions/stripe-webhook/sync.ts:13-31 | column by column what the product row holds; active unless deleted or said not to be |
| StripeSync.PriceWrites | supabase/functions/stripe-webhook/sync.ts:32-48 | column by column what the price row holds; refused exactly without its product |
| StripeSync.CheckoutWrites | supabase/functions/stripe-webhook/sync.ts:137-149 | the checkout gives its tenant the customer; refused exactly when another tenant has it, and nothing without both names |
| StripeSync.LookupsRepeat | supabase/functions/stripe-webhook/sync.ts:64-114 | a partly applied event leaves every lookup it makes with the same answer |
| StripeSync.AdvanceStaysUnderway | supabase/functions/stripe-webhook/sync.ts:10-153 | each database call, made from a partly applied state, leads on to the outcome of one clean application |
| StripeSync.RetryEqualsCleanApplication | supabase/functions/stripe-webhook/sync.ts:10-153 | applying again after any prefix of the calls gives the outcome of one clean application |
| StripeSync.ApplyingTwiceIsOnce | supabase/functions/stripe-webhook/sync.ts:10-153 | applying an event twice equals applying it once |
| StripeSync.EventTouchesOnlyItsOwn | supabase/functions/stripe-webhook/sync.ts:10-153 | no event changes another tenant, another object's mirror row or the plan table; a deleted product or price ends up inactive |
| StripeSync.Database.ApplyEvent | supabase/functions/stripe-webhook/sync.ts:10-153 | it returns exactly when no call it comes to fails and no write is refused, and then it is one clean application; a throw leaves the state after some prefix of the calls |
| StripeWebhook.StepKeepsInv | supabase/functions/stripe-webhook/index.ts:47-72 | every insert, database call and undo of concurrent deliveries keeps each event's row, flight and history in step |
| StripeWebhook.LedgerGuarantees | supabase/functions/stripe-webhook/index.ts:47-72 | in every run at most one delivery works on an event and it completes at most once; a row with nobody in flight means it completed exactly once if and only if no undo failed, and an ok answer means it completed |
| StripeWebhook.FailedEventIsRetried | supabase/functions/stripe-webhook/index.ts:56-71 | a failed application whose undo succeeds lets the next delivery start from scratch |
| StripeWebhook.FailedUndoLosesTheEvent | supabase/functions/stripe-webhook/index.ts:64-68 | once an undo has failed the event is never applied again |
| StripeWebhook.DuplicatesApplyOnce | supabase/functions/stripe-webhook/index.ts:47-72 | under any interleaving of duplicate deliveries failing at any call, a standing row with nobody in flight means the tables are those of one clean application |
| StripeWebhook.Webhook.Handle | supabase/functions/stripe-webhook/index.ts:27-72 | each answer exactly in its case, in particular ok exactly for a fresh verified event whose calls all go through and whose writes are accepted; with the resulting ledger and tables |
| Snapshot.InMemoryFeatureStore.Seed | services/feature-store/src/trax_io_feature_store/client.py:171-176 | refuses an unknown bucket; otherwise this tenant, bucket and key hold the value and every other place holds what it held |
| Snapshot.DumpBucket | services/feature-store/src/trax_io_feature_store/snapshot.py:72-87 | fails exactly on a value that is no model; otherwise each key is written once, sharing an index exactly when it shares an object |
| Snapshot.DumpStore | services/feature-store/src/trax_io_feature_store/snapshot.py:65-92 | fails exactly when some value is no model, and otherwise writes a faithful document |
| Snapshot.DistinctEntriesSeed | services/feature-store/src/trax_io_feature_store/snapshot.py:140-143 | distinct keys with proper indices are all seeded, each with its own instance |
| Snapshot.FaithfulReadsBack | services/feature-store/src/trax_io_feature_store/snapshot.py:133-146 | reading a faithful bucket back gives the same keys, equal models and the same sharing |
| Snapshot.LoadStore | services/feature-store/src/trax_io_feature_store/snapshot.py:101-147 | a bad file head gives its error; otherwise the file loads exactly when no bucket in it is unknown, lacks parts, holds an invalid value or an index out of range, and the error raised is the first such fault of one of its buckets; a faithful dump of a well-typed store loads to the same data |
| Snapshot.SeedingFailsIff | services/feature-store/src/trax_io_feature_store/snapshot.py:140-147 | seeding a bucket fails exactly when some entry's index, counted from the end if negative, is out of range |
| Snapshot.LastEntryWins | services/feature-store/src/trax_io_feature_store/snapshot.py:140-143 | every listed key holds the instance of its last entry, a negative index counting from the end |
| Snapshot.RoundTrip | services/feature-store/src/trax_io_feature_store/snapshot.py:65-147 | dump then load gives the same map with the same sharing per bucket exactly when every bucket holds models of its own class |
| Snapshot.MisfiledModel | services/feature-store/src/trax_io_feature_store/client.py:171-176 | seed accepts a model of another class, and the store is then not well typed |
| Snapshot.MisfiledExample | services/feature-store/src/trax_io_feature_store/snapshot.py:65-147 | any valid stock position filed as a current policy does not survive the round trip |
| JsonText.EscapeUnique | services/agent-spine/src/trax_io_spine/scenario_result.py:134-140 | an escaped string ends at its first bare quote: escaping is injective, surrogate pairs included |
| JsonText.SortedKeysAreSorted | services/agent-spine/src/trax_io_spine/scenario_result.py:134-140 | object members come out in increasing key order |
| JsonText.DumpsUnique | services/agent-spine/src/trax_io_spine/scenario_result.py:134-140 | inside any larger text the value and the rest are determined |
| JsonText.DumpsInjective | services/agent-spine/src/trax_io_spine/scenario_result.py:134-140 | two JSON values have the same compact text exactly when they are equal |
| JsonText.ListIsJoined | services/agent-spine/src/trax_io_spine/scenario_result.py:134-140 | a list is written as its items joined by commas in brackets |
| JsonText.ObjectIsJoined | services/agent-spine/src/trax_io_spine/scenario_result.py:134-140 | an object is written as its members in key order joined by commas in braces |
| JsonText.UnicodeEscapeIs | services/agent-spine/src/trax_io_spine/scenario_result.py:138-138 | a character outside printable ASCII is written as its UTF-16 code units, four hexadecimal digits each |
| JsonText.HexReads | services/agent-spine/src/trax_io_spine/scenario_result.py:138-138 | the four digits read back as the code unit |
| Fingerprint.SortThenCanonicalize | services/agent-spine/src/trax_io_spine/scenario_result.py:126-130 | sorting the entries by key text before or after canonicalizing is the same |
| Fingerprint.LastWinsOfSort | services/agent-spine/src/trax_io_spine/scenario_result.py:126-130 | the stable sort by key text does not change which of several equal key texts wins |
| Fingerprint.ListReads | services/agent-spine/src/trax_io_spine/scenario_result.py:131-142 | the canonical list is the canonical items in increasing order of their JSON text |
| Fingerprint.MappingReads | services/agent-spine/src/trax_io_spine/scenario_result.py:126-130 | the canonical mapping has the key texts that occur, each with its last value |
| Fingerprint.ItemsCanonEqual | services/agent-spine/src/trax_io_spine/scenario_result.py:131-142 | two lists get the same canonical list exactly when they hold the same canonical items, each as often |
| Fingerprint.CanonDecidesEquiv | services/agent-spine/src/trax_io_spine/scenario_result.py:121-147 | two nested values have the same canonical form exactly when they are the same data up to the order of lists, sets and mappings at every depth |
| Fingerprint.TextDecidesEquiv | services/agent-spine/src/trax_io_spine/scenario_result.py:195-201 | the hashed text is equal exactly for equivalent values |
| Fingerprint.FingerprintDecidesEquiv | services/agent-spine/src/trax_io_spine/scenario_result.py:195-202 | equivalent inputs share the fingerprint; others share it only by a hash collision |
| FingerprintOrder.ShuffleKeepsCanon | services/agent-spine/src/trax_io_spine/scenario_result.py:121-147 | reordering anything at any depth keeps the canonical form when no mapping has clashing key texts |
| FingerprintOrder.ClashShows | services/agent-spine/src/trax_io_spine/scenario_result.py:126-130 | a clash anywhere is brought to light by some reordering |
| FingerprintOrder.OrderIgnoredIffNoClash | services/agent-spine/src/trax_io_spine/scenario_result.py:121-147 | the hashed text ignores order for exactly the values in which no mapping has two keys with the same text and different values |
| FingerprintOrder.PairClashes | services/agent-spine/src/trax_io_spine/scenario_result.py:126-130 | two entries with the same key text and different values make the canonical form depend on their order |
| FingerprintOrder.ClashExample | services/agent-spine/src/trax_io_spine/scenario_result.py:126-130 | the keys 1 and "1" in one mapping make the fingerprint depend on insertion order |
| FingerprintOrder.CanonIsIdempotent | services/agent-spine/src/trax_io_spine/scenario_result.py:121-147 | canonicalizing a canonical value changes nothing |
| ScenarioInputs.RecordsAgreeByField | services/agent-spine/src/trax_io_spine/scenario_result.py:163-194 | two dictionaries with the same distinct keys are equivalent exactly when every field is |
| ScenarioInputs.UniverseDecides | services/agent-spine/src/trax_io_spine/scenario_result.py:168-168 | the key universe counts as a bag of unordered pairs, because each (pn, location) tuple is sorted as well |
| ScenarioInputs.PayloadHolds | services/agent-spine/src/trax_io_spine/scenario_result.py:163-194 | every input stands under its own name in the hashed payload |
| ScenarioInputs.ParamsHold | services/agent-spine/src/trax_io_spine/scenario_result.py:184-193 | so does every parameter |
| ScenarioInputs.TextDecidesInputs | services/agent-spine/src/trax_io_spine/scenario_result.py:150-203 | two scenario inputs hash the same text exactly when every field agrees up to order |
| ScenarioInputs.SwappedKeyIsNotSeen | services/agent-spine/src/trax_io_spine/scenario_result.py:131-142 | swapping part number and location in a key of the universe does not change the text |
| DecimalText.WholeUnique | apps/web/src/features/portfolio/PlanningRunForm.tsx:67-67 | digits before the point without leading zeros are determined by their value |
| DecimalText.FractionUnique | apps/web/src/features/portfolio/PlanningRunForm.tsx:68-68 | digits after the point without trailing zeros are determined by their value |
| DecimalText.UnsignedUnique | apps/web/src/features/portfolio/PlanningRunForm.tsx:62-70 | spellings without redundant zeros are equal exactly when the numbers are |
| DecimalText.StrippingKeepsValue | apps/web/src/features/portfolio/PlanningRunForm.tsx:67-68 | removing redundant zeros keeps the value |
| DecimalText.ShiftByTwo | apps/web/src/features/part/candidateView.ts:27-36 | two digits moved over the point multiply by 100 |
| PlanningForm.ParseOfSpelling | apps/web/src/features/portfolio/PlanningRunForm.tsx:64-64 | the pattern accepts every optional sign, digits and optional point, and recovers the parts |
| PlanningForm.SpellingOfParsed | apps/web/src/features/portfolio/PlanningRunForm.tsx:64-65 | the pattern accepts nothing else |
| PlanningForm.TrimTakesSpace | apps/web/src/features/portfolio/PlanningRunForm.tsx:63-63 | trimming takes white space off both ends and nothing else |
| PlanningForm.SpaceCodes | apps/web/src/features/portfolio/PlanningRunForm.tsx:63-63 | the code points that trimming takes for white space |
| PlanningForm.NormalizeDecides | apps/web/src/features/portfolio/PlanningRunForm.tsx:62-70 | for every pair of strings, malformed ones included, the normal forms are equal exactly when the texts mean the same number (with the sign of a zero) or the same trimmed text |
| PlanningForm.UnsignedNormalizeDecides | apps/web/src/features/portfolio/PlanningRunForm.tsx:62-70 | without a minus sign the normal forms are equal exactly when the values are |
| PlanningForm.NormalizeIsIdempotent | apps/web/src/features/portfolio/PlanningRunForm.tsx:62-70 | normalizing twice is normalizing once, for every string |
| PlanningForm.NormalFormIsMinimal | apps/web/src/features/portfolio/PlanningRunForm.tsx:62-70 | the normal form of a decimal is the same number with its sign, without redundant zeros and without a plus |
| PlanningForm.ZeroNormalForm | apps/web/src/features/portfolio/PlanningRunForm.tsx:66-69 | every zero is written 0 or -0 |
| PlanningForm.MinusZeroDiffers | apps/web/src/features/portfolio/PlanningRunForm.tsx:66-69 | minus zero equals zero but has another normal form |
| PlanningForm.NormalizeFloorDecides | apps/web/src/features/portfolio/PlanningRunForm.tsx:74-82 | two floors normalize alike exactly when their texts agree trimmed and their numbers agree |
| PlanningForm.FloorSignatureDecides | apps/web/src/features/portfolio/PlanningRunForm.tsx:72-86 | signatures agree exactly for the same floors in any order, however their numbers are spelled, when the collation tells them apart |
| PlanningForm.FloorOrderIgnoredIff | apps/web/src/features/portfolio/PlanningRunForm.tsx:83-85 | the signature ignores floor order exactly when floors that tie in the collation are equal |
| PlanningForm.FloorsCanTie | apps/web/src/features/portfolio/PlanningRunForm.tsx:83-85 | in any collation, two different floors that tie show the order in which they were entered |
| PlanningForm.FloorSignatureIff | apps/web/src/features/portfolio/PlanningRunForm.tsx:72-86 | in any collation the signatures agree exactly for the same floors with those that tie in the same order |
| PlanningForm.AccentedFloorsTie | apps/web/src/features/portfolio/PlanningRunForm.tsx:83-85 | one accented letter typed composed and decomposed: a collation that equates them leaves the order in the signature |
| PlanningForm.TiersDecide | apps/web/src/features/portfolio/PlanningRunForm.tsx:122-127 | criticality tiers that do not tie leave the same trace in the signature exactly when their weights are the same, in whatever order they were entered |
| PlanningForm.TierSignatureIff | apps/web/src/features/portfolio/PlanningRunForm.tsx:122-127 | in any collation two lists of tiers leave the same trace exactly for the same tiers and weights with those that tie in the same order |
| PlanningForm.TierOrderIgnoredIff | apps/web/src/features/portfolio/PlanningRunForm.tsx:122-127 | the signature ignores the order in which tiers were entered exactly when different tiers do not tie in property order and collation |
| PlanningForm.IndexTiersAreSeparate | apps/web/src/features/portfolio/PlanningRunForm.tsx:122-127 | tiers named by numbers never tie, whatever the collation |
| PlanningForm.AssumptionSignatureDecides | apps/web/src/features/portfolio/PlanningRunForm.tsx:99-131 | where no tiers and no floors tie, the signature is unchanged exactly when scope, numbers, weights and floors are the same |
| PlanningForm.AssumptionSignatureIff | apps/web/src/features/portfolio/PlanningRunForm.tsx:99-131 | whatever ties, the signature is unchanged exactly for the same scope and numbers and the same tiers and floors, with those that tie in the same order |
| PlanningForm.LabelUnmistakableIff | apps/web/src/features/portfolio/PlanningRunForm.tsx:104-104 | no other key has the same label exactly when neither part number nor location holds an @ |
| PlanningForm.LabelsCollide | apps/web/src/features/portfolio/PlanningRunForm.tsx:104-104 | two concrete keys share a label |
| Stability.SortKeepsTies | apps/web/src/features/portfolio/PlanningRunForm.tsx:83-85 | the sort is stable |
| Stability.SortIgnoresOrderIff | apps/web/src/features/portfolio/PlanningRunForm.tsx:83-85 | sorting gives all permutations one result exactly when ties are equal |
| Stability.SortsAlikeIff | apps/web/src/features/portfolio/PlanningRunForm.tsx:83-85 | two lists sort alike exactly when they hold the same elements with those that tie in the same order |
| Stability.SortTwice | apps/web/src/features/portfolio/PlanningRunForm.tsx:122-127 | sorting the keys and then rebuilding the object in property order is one stable sort by both, for every list |
| Ordering.SortIgnoresOrder | services/agent-spine/src/trax_io_spine/scenario_result.py:133-142 | two lists sort alike exactly when they are permutations, given ties are equal |
| Ordering.LessIff | services/agent-spine/src/trax_io_spine/scenario_result.py:133-142 | strings compare where they first differ, a proper prefix first |
| Ordering.PairLeIff | services/feature-store/src/trax_io_feature_store/online_writer.py:91-91 | keys are sorted by part number and then by location |
| CandidateView.GroupedWithoutCommas | apps/web/src/features/part/candidateView.ts:16-16 | removing the commas of grouped digits gives the digits back |
| CandidateView.GroupedIsTheOnly | apps/web/src/features/part/candidateView.ts:16-16 | the grouped text is the only one with these digits in groups of three after a first group of one to three |
| CandidateView.DecimalIsRecovered | apps/web/src/features/part/candidateView.ts:11-18 | removing the commas from what is shown gives back the decimal; other text is shown as it is |
| CandidateView.DecimalIsGrouped | apps/web/src/features/part/candidateView.ts:11-18 | a decimal is shown with its sign and fraction as typed around its whole digits in standard grouping |
| CandidateView.ShiftedParts | apps/web/src/features/part/candidateView.ts:25-37 | where the moved point splits the padded digits |
| CandidateView.PercentIsExact | apps/web/src/features/part/candidateView.ts:21-44 | for every ratio of any length the percentage shown is exactly 100 times its value, without redundant zeros, grouped and ended by a per-cent sign |
| CandidateView.PercentDecides | apps/web/src/features/part/candidateView.ts:21-44 | two ratios are shown alike exactly when they are equal numbers |
| CandidateView.OtherTextIsMarked | apps/web/src/features/part/candidateView.ts:22-23 | what is no unsigned ratio is shown as a decimal, or as it is, and marked as meant to be a ratio |
| EmpiricalBayes.FitIsValid | services/forecasting/src/trax_io_forecasting/eb.py:45-62 | fitting never raises: the parameters are positive whatever the rates and exposures |
| EmpiricalBayes.VarianceIdentity | services/forecasting/src/trax_io_forecasting/eb.py:45-58 | the sample variance is the sum of squares less n times the squared mean, over n - 1 |
| EmpiricalBayes.FitMatchesMoments | services/forecasting/src/trax_io_forecasting/eb.py:53-60 | for overdispersed rates the prior's mean is the sample mean and its variance plus Poisson noise is the sample variance, exactly when no floor acts |
| EmpiricalBayes.OverdispersedFit | services/forecasting/src/trax_io_forecasting/eb.py:53-60 | for overdispersed rates both parameters are those of the moments, each raised to the floor where it falls below |
| EmpiricalBayes.ClampedSample | services/forecasting/src/trax_io_forecasting/eb.py:53-60 | a sample for which the floor acts and the means differ |
| EmpiricalBayes.FallbackMatchesExposure | services/forecasting/src/trax_io_forecasting/eb.py:61-62 | otherwise the prior weighs one average exposure and has the (floored) sample mean |
| EmpiricalBayes.FitIgnoresOrder | services/forecasting/src/trax_io_forecasting/eb.py:45-62 | the prior depends only on which rates and exposures there are |
| EmpiricalBayes.PosteriorShrinks | services/forecasting/src/trax_io_forecasting/eb.py:30-36 | the posterior rate lies strictly between the prior mean and the observed rate, or equals both |
| EmpiricalBayes.PosteriorCounts | services/forecasting/src/trax_io_forecasting/eb.py:30-36 | the posterior rate times prior weight plus exposure is prior shape plus count; without exposure it is the prior mean |
| EmpiricalBayes.PredictiveVarianceIsWider | services/forecasting/src/trax_io_forecasting/eb.py:39-42 | the predictive variance is at least the rate exactly when alpha plus count is not negative |
| EmpiricalBayes.NegativeEvidenceIsNarrower | services/forecasting/src/trax_io_forecasting/eb.py:39-42 | a negative count for which the predictive variance is below the rate |
| PeerPriors.Fit | services/forecasting/src/trax_io_forecasting/peer_priors.py:63-76 | a prior for exactly the groups with enough members, each the one fitted on the plain filter of the records |
| PeerPriors.FitsMemberRates | services/forecasting/src/trax_io_forecasting/peer_priors.py:58-61 | a group is fitted on the events per exposure and the exposures of exactly its exposed members |
| PeerPriors.GetPrior | services/forecasting/src/trax_io_forecasting/peer_priors.py:78-85 | the prior under the first key present, else the global one |
| PeerPriors.LookupIsPeerPrior | services/forecasting/src/trax_io_forecasting/peer_priors.py:48-85 | fit then lookup is fitting the plain filter at the finest level with enough peers, else all records |
| PeerPriors.CoarserHasMorePeers | services/forecasting/src/trax_io_forecasting/peer_priors.py:48-50 | a coarser level has at least as many peers |
| PeerPriors.PeerPriorIgnoresOrder | services/forecasting/src/trax_io_forecasting/peer_priors.py:63-85 | the order of the records does not matter |
| PeerPriors.UsableIsAll | services/forecasting/src/trax_io_forecasting/peer_priors.py:58-61 | every peer counted is also fitted exactly when all have exposure |
| PeerPriors.UnexposedGroupDecides | services/forecasting/src/trax_io_forecasting/peer_priors.py:70-74 | at whatever level the lookup ends, the uninformed prior is served exactly when the deciding group has no exposure, or has a mean rate at the floor and a fitted weight of one |
| PeerPriors.UnexposedExample | services/forecasting/src/trax_io_forecasting/peer_priors.py:70-74 | two unexposed records of a rare kind outvote a well observed tier |

## Left out

Online publication:

- Generation ids are a parameter assumed fresh and well-formed, as `uuid4().hex` is.
- Every put reports its outcome definitely; a request that times out after taking effect is not modelled.
- Bundles are values with a tenant, a key, the feature groups present and their JSON text; `materialize_bundle` is a function parameter, and schema validation of stored bodies and non-integer stored counts are folded into the malformed-item error.
- The `int()` spellings other than ASCII digits all fail the next test of the decoder, so they share its error.
- Generations that were never committed are not cleaned up, in the code as in the model.
- Building the runtime from environment variables.

Repair returns:

- Floating-point rounding and non-finite numbers: the model is over reals, and the square root is a function with non-negative values whose squares are the argument.
- The lognormal curve is a parameter assumed to be a survival curve; `erf` and the logarithms are not modelled.
- Evidence labels, confidence, provenance, exclusions and warnings, other than whether evidence was available.

Feature lake:

- Iceberg scans and catalog errors are row sequences and absent tables; JSON parsing of the status text is a parameter.
- FeatureLake.InferenceKeys: the sorted listing is modelled as the set it sorts.
- The aggregation of exploded groups, `_build` and the per-feature getters.

Event delivery:

- HTTP and JSON encoding; a malformed body is a request without an event.
- EventDelivery.EventPublisher.Publish: assumes that nothing but the endpoint answers 202 or 409; an empty backoff table raises, as an `Err` here.

Stripe:

- Signature verification and the configured secret are parameters; times are epoch seconds.
- Column defaults, enum and check constraints count as refused writes; the foreign key and the uniqueness of customers are modelled.
- A crash between the ledger insert and the apply, and the body-less error reporting.
- StripeWebhook.Webhook.Handle: a duplicate may be answered 200 while the first delivery is still applying and may yet fail.

Snapshots:

- The file is a document value, its JSON text is not modelled; model fields are opaque text, valid or not for a class.
- Snapshot.LoadStore: of several faulty buckets the file's first is reported by the code, any of them by the model.
- Sharing of one object across buckets or tenants is not preserved by the code and not claimed.

Fingerprints:

- SHA-256 is an arbitrary function of the text; nothing is claimed about collisions.
- Values with non-finite numbers or other types, for which serialization raises; numbers are their JSON spelling.
- Strings are sequences of Unicode scalar values: two lone surrogates, which Python would write like the character they pair to, do not occur.
- Persisted payloads and their hydration, outcome wires and impacts in `scenario_result.py`.

Web text:

- `localeCompare` is any total preorder, `Number(...)` and `toUpperCase` are parameters, and `JSON.stringify` of the signature is taken as the object itself.
- The default `sort()` of key labels compares UTF-16 units; the model compares code points, which changes the order of the labels but not which lists are equal.
- User interface code, label and money formatting.

Peer priors:

- Building records from planning contexts (`peer_record_from_context`), and floating point; over reals the finiteness checks cannot fail.

Not modelled at all: `service.py`, `supervisor.py`, the recommenders, deployment stacks, Oracle
access, the pages and components of the web application, and the other endpoints.
