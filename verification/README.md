# FoldDB node: verified models

A Dafny 4.11 model of the parts of the FoldDB node that keep state, race or search, with
proofs about whole runs.

- **Fingerprint graph** (`FingerprintGraph`, `Resolver`, `ResolverLaws`): a Persona query is a
  worklist traversal over Edge records and junction rows. Its result is proved to be the
  component that walks define, in any seed and row order, with exact diagnostics, and it is
  proved on which stores this holds.
- **Producers** (`FingerprintKeys`, `FingerprintStore`, `PhotoIngest`, `FaceAnnCache`,
  `IngestMachine`, `IngestCoverage`, `IngestSymmetry`): planned records, the writer, the face
  index, and every interleaving of photo ingests racing for the one-time cache rebuild, in any
  life of the process. The invariant they keep is the one the resolver needs, whatever fails,
  and it is proved which faces the cache can miss.
- **Queries during ingest** (`LiveResolver`, `ResolveDuringIngest`): a resolution whose database
  queries interleave with ingests.
- **View loader** (`ViewLoader`): depth-first loading of views and their dependencies.
- **Auth refresh** (`AuthRefresh`) and **identity** (`Identity`): the backoff bound, and no
  silent identity rotation while key sources change.
- **Discovery** (`Moments`, `CalendarSharing`, `UploadTracking`, `SentRequests`): moment hashes
  and their capped store, calendar overlap, uploaded-pseudonym tracking, connection replies.

Loops and objects that the source updates in place are methods and classes, each proved equal
to a function of the old state; the laws are lemmas about those functions. Databases are maps,
network and write failures are inputs, SHA-256 and HMAC are injective functions where a lemma
says so, authenticated encryption is ideal, floats are exact reals. Record keys are wrapped
strings.

Where the code and its comments differ, the model follows the code: the resolver's worklist is
popped from its end although the comments call it breadth-first; the fifth consecutive failure
of an auth refresh waits an hour, so the 16-second step of the comments never occurs; and a
view's output schema must be on the service even when it is already local.

Check the whole project with `dafny verify dfyconfig.toml`.

## Model

| member | source | states |
|---|---|---|
| FingerprintGraph.Edge.OtherEndpoint | src/fingerprints/resolver.rs:114-122 | the far end exists exactly for an endpoint, and together with it makes up the edge's endpoint pair |
| FingerprintGraph.ComponentIsLeastClosed | src/fingerprints/resolver.rs:236-307 | a component, defined by walks, is the least set that holds the existing seeds and is closed under usable edges |
| Resolver.Resolve | src/fingerprints/resolver.rs:236-371 | terminates on every store and answers as `Answers` says: fingerprints, edges, mentions, every counter and both lists; with rows keyed by endpoints the fingerprints are exactly the component |
| Resolver.Traverse | src/fingerprints/resolver.rs:241-307 | the LIFO worklist loop computes the drained state of its functional form |
| Resolver.ScanFingerprint | src/fingerprints/resolver.rs:267-306 | the row loop with its shortcut and four filters, row by row |
| Resolver.CollectMentions | src/fingerprints/resolver.rs:309-324 | mentions are those of visited fingerprints that are not excluded plus the included ones; the counter sums the excluded rows |
| ResolverLaws.EdgesOfAnswer | src/fingerprints/resolver.rs:273-302 | the edges of an answer are those on a row of its fingerprints that are stored, not excluded, not UserForbidden and weigh at least the threshold |
| ResolverLaws.LinkMeans | src/fingerprints/resolver.rs:299-306 | two fingerprints are linked exactly by a row at the first with such an edge between them |
| ResolverLaws.CountersOfAnswer | src/fingerprints/resolver.rs:273-297 | each counter is the number of rows of the answer's fingerprints that meet its filter and none before it |
| ResolverLaws.DanglingOfAnswer | src/fingerprints/resolver.rs:281-290 | the dangling list holds exactly the record-less edges, not excluded, on rows of the answer's fingerprints |
| ResolverLaws.MissingOfAnswer | src/fingerprints/resolver.rs:253-260 | the missing list holds ids without a record that are seeds or far ends of such edges, all of them with endpoint-keyed rows |
| ResolverLaws.MentionsOfAnswer | src/fingerprints/resolver.rs:309-324 | the mentions are the included ones and those on the fingerprints' rows that are not excluded |
| ResolverLaws.CleanMeans | src/fingerprints/resolver.rs:149-156 | no diagnostics exactly when all counters are zero and both lists empty |
| Resolver.PopComplete | src/fingerprints/resolver.rs:268-306 | the visited-edge shortcut drops no far end of an accepted edge, except of edges met at a fingerprint that is none of their ends |
| Resolver.PopSound | src/fingerprints/resolver.rs:243-306 | a round visits only reachable existing fingerprints and queues or reports only named ids |
| Resolver.VisitCounts | src/fingerprints/resolver.rs:273-297 | visiting a fingerprint adds its rows' verdicts to the three counters and its record-less rows to the dangling list, without repetition |
| Resolver.DrainedIsComponent | src/fingerprints/resolver.rs:236-307 | an emptied worklist has visited the component unless a row at a stranger hides an edge, and with endpoint-keyed rows reported every named id that does not exist |
| ResolverLaws.OrderDoesNotMatter | src/fingerprints/resolver.rs:241-333 | answers to a query whose seeds and rows are listed in another order agree on all sets, all counters and both lists |
| ResolverLaws.StricterQueryShrinks | src/fingerprints/resolver.rs:273-297 | the result of a query with a higher threshold, more exclusions or fewer seeds is contained in the other result |
| ResolverLaws.UnionOfSeeds | src/fingerprints/resolver.rs:241-307 | the result for a union of seed sets is the union of the results |
| ResolverLaws.ReseedingIsFixedPoint | src/fingerprints/resolver.rs:241-307 | re-seeding with a result, in any order, gives that result |
| ResolverLaws.SingleSeedResultsPartition | src/fingerprints/resolver.rs:241-307 | with symmetric rows, single-seed results cover the existing fingerprints and are equal or disjoint |
| ResolverLaws.CleanIsWholeComponent | src/fingerprints/resolver.rs:149-156 | a result is clean exactly when nothing named is missing and nothing touched was filtered; it is then closed under every junction row, and least with that property |
| ResolverLaws.ZeroHits | src/fingerprints/resolver.rs:273-297 | a counter is zero exactly when no row of a visited fingerprint met that filter |
| ResolverLaws.StrayRowLosesFingerprint | src/fingerprints/resolver.rs:268-270 | an edge, not forbidden, with a row at an existing non-endpoint and one at an existing end that leads to another existing fingerprint makes some query lose that fingerprint, which the reverse seed order finds |
| ResolverLaws.ExactForEveryQueryIff | src/fingerprints/resolver.rs:236-307 | every query on a store is answered with its component exactly when no edge, forbidden ones aside, has a row at an existing non-endpoint and one at an existing end that leads to another existing fingerprint |
| FingerprintKeys.EdgeIdIsSymmetric | src/fingerprints/keys.rs:127-135 | swapping the endpoints does not change the edge key |
| FingerprintKeys.EdgeIdIs | src/fingerprints/keys.rs:127-135 | the shape of an edge key, its ends in order |
| FingerprintKeys.AtMostMeans | src/fingerprints/keys.rs:128-128 | the order is that of the first differing character, a prefix first |
| FingerprintKeys.FingerprintIdIdentifies | src/fingerprints/keys.rs:92-98 | within a kind a fingerprint id determines its canonical bytes; with 64-digit hashes all ids have one length |
| FingerprintKeys.EdgeIdIdentifiesEdge | src/fingerprints/keys.rs:127-135 | for ids of one length and an injective hash, keys are equal exactly for equal endpoint pairs and kinds |
| FingerprintKeys.UnequalLengthsCollide | src/fingerprints/keys.rs:127-135 | without equal lengths two different pairs can share a key |
| FingerprintStore.Database.WriteRecords | src/fingerprints/writer.rs:110-156 | writes in order, stops at the first error, leaves exactly that prefix written |
| FingerprintStore.ApplyMeans | src/fingerprints/writer.rs:124-148 | a write puts its own record there, in place of one under the same key, and leaves every other record alone |
| FingerprintStore.ApplyKeepsRowsDistinct | src/fingerprints/writer.rs:124-148 | writing a junction row twice leaves one, and the others keep their order |
| FingerprintStore.OverwriteKeepsEnds | src/fingerprints/keys.rs:127-135 | overwriting an edge id keeps its endpoint pair |
| FingerprintStore.EveryPrefixKeepsInv | src/fingerprints/writer.rs:124-156 | whatever prefix of a well-formed batch was persisted, every row points to a stored edge with that endpoint, and every edge joins two distinct stored fingerprints |
| FingerprintStore.BatchGrows | src/fingerprints/writer.rs:124-156 | a pending batch stays well formed while others write |
| PhotoIngest.PlanFaceExtraction | src/fingerprints/extractors/face.rs:110-244 | the plan's records in order: status, fingerprints, mention rows of unique ids, a triple for each pair |
| PhotoIngest.PlanOk | src/fingerprints/extractors/face.rs:147-241 | a plan may be written to any store record by record, and once written all its faces exist |
| PhotoIngest.EveryPairIsPlanned | src/fingerprints/extractors/face.rs:204-241 | any two different faces of a photo get an edge and a row at each end |
| PhotoIngest.PlannedMeans | src/fingerprints/extractors/face.rs:127-241 | every planned record is the status, a face's fingerprint or mention row, or a co-occurrence edge or row, of weight 0.2, of two different faces |
| PhotoIngest.FaceIsPlanned | src/fingerprints/extractors/face.rs:127-196 | the status comes first; every face gets its fingerprint and its mention row |
| PhotoIngest.PairIsPlanned | src/fingerprints/extractors/face.rs:204-241 | every two different faces get their co-occurrence edge and a row at each end |
| PhotoIngest.PlannedEdgesAreOrdered | src/fingerprints/extractors/face.rs:284-297 | a planned edge lists its ends in key order |
| PhotoIngest.RecordHits | src/fingerprints/ingest_photo.rs:259-300 | one edge and two rows for each sufficiently similar other face |
| PhotoIngest.LinkedIffSimilar | src/fingerprints/ingest_photo.rs:259-300 | a record is emitted exactly for a hit on another face at similarity 0.85 or more, StrongMatch from 0.95 on, weighted by it |
| PhotoIngest.EmitSimilarityEdges | src/fingerprints/ingest_photo.rs:236-304 | each face is compared with the cache and its elder siblings before it is added; malformed faces are skipped |
| PhotoIngest.SimilarFacesAreLinked | src/fingerprints/ingest_photo.rs:254-304 | a cached face or elder sibling of another id among the first five items of a face's search, at similarity 0.85 or more, is linked to it, strongly from 0.95 on, with that similarity as weight |
| PhotoIngest.EmittedMeans | src/fingerprints/ingest_photo.rs:254-304 | nothing else is emitted |
| PhotoIngest.EmittedOk | src/fingerprints/ingest_photo.rs:236-304 | on a store that holds the faces and all cached fingerprints, the emitted records are a well-formed batch |
| FaceAnnCache.SimilarityRange | src/fingerprints/face_ann_cache.rs:113-129 | unit embeddings of any dimensions have similarity in [-1, 1] and distance in [0, 2] |
| FaceAnnCache.CosineSnoc | src/fingerprints/face_ann_cache.rs:113-122 | similarity grows by one product with every common dimension |
| FaceAnnCache.CosineIgnoresRest | src/fingerprints/face_ann_cache.rs:113-122 | dimensions that only one embedding has do not matter |
| FaceAnnCache.NormalizedIsUnit | src/fingerprints/face_ann_cache.rs:89-103 | construction rejects exactly vectors of norm zero and otherwise yields a unit vector |
| FaceAnnCache.FlushReflectsAll | src/fingerprints/face_ann_cache.rs:220-238 | the length-only staleness test is sound: after a flush the index was built from all entries |
| FaceAnnCache.CoherentOverAnyRun | src/fingerprints/face_ann_cache.rs:207-276 | over any sequence of critical sections a present index was built from exactly the first `indexed_len` entries |
| FaceAnnCache.Cache.AddEntry | src/fingerprints/face_ann_cache.rs:207-210 | appends one entry and leaves the index alone |
| FaceAnnCache.Cache.FlushIndex | src/fingerprints/face_ann_cache.rs:220-238 | rebuilds from all entries when stale, drops the index when empty, otherwise does nothing |
| FaceAnnCache.Cache.Nearest | src/fingerprints/face_ann_cache.rs:245-263 | hits come from an index over every entry added before the call, at most k, with their cosine similarity |
| FaceAnnCache.HitsAreFirstItems | src/fingerprints/face_ann_cache.rs:245-263 | the hits are the first k items of the search, in its order: the id of the point and 1 less the distance, which is the similarity |
| FaceAnnCache.Cache.ReplaceAll | src/fingerprints/face_ann_cache.rs:269-276 | replaces the entries and leaves an index over exactly them |
| FaceAnnCache.ReadRegistry | src/fingerprints/face_ann_cache.rs:380-421 | keeps exactly the rows of well-formed faces, counts the malformed ones, passes over other kinds |
| FaceAnnCache.EntryMeans | src/fingerprints/face_ann_cache.rs:383-419 | a row yields an entry exactly when it is a face_embedding row with an id and a value of numbers only that can be normalized |
| FaceAnnCache.SkippedMeans | src/fingerprints/face_ann_cache.rs:383-419 | as many rows are skipped as are no record at all or a face that yields no entry |
| IngestMachine.StepKeepsInv | src/fingerprints/ingest_photo.rs:222-312 | every step of every task keeps the store, cache, flag and lock invariants and every other task's expectations |
| IngestMachine.RebuildReadsSnapshot | src/fingerprints/face_ann_cache.rs:357-423 | what the rebuild reads is every well-formed face of the store, each once |
| IngestMachine.RebuiltOnceThenEveryAdd | src/fingerprints/face_ann_cache.rs:306-320 | in every interleaving, on any store that ingests leave, the rebuild replaces the cache at most once and before every add; once ready the entries are that snapshot followed by every add; a finished task's faces are all cached |
| IngestMachine.EveryLifeIsARun | src/fingerprints/face_ann_cache.rs:284-305 | over any number of process lives, each starting where the one before stopped, every life is a run on a store that keeps the invariant |
| IngestMachine.SomeTaskCanGoOn | src/fingerprints/face_ann_cache.rs:306-320 | no deadlock: while some task is neither finished nor failed, some task can take a step that is no failure |
| IngestMachine.StepComesNearer | src/fingerprints/ingest_photo.rs:222-312 | no task goes on for ever: each of its steps brings it nearer to its end |
| IngestMachine.ReadyGoesStraightOn | src/fingerprints/face_ann_cache.rs:306-309 | once the flag is set, a task touches neither the lock nor the cache before its first query |
| IngestMachine.EmptyPhotoIsDone | src/fingerprints/ingest_photo.rs:228-230 | a photo without faces touches neither the lock nor the cache |
| IngestCoverage.CachedIff | src/fingerprints/face_ann_cache.rs:306-320 | once ready, the cache holds exactly the faces that the rebuild read and those that tasks added |
| IngestCoverage.ReadyWasRebuilt | src/fingerprints/face_ann_cache.rs:306-320 | once ready, the entries in use start with what a rebuild read at some earlier moment of the run |
| IngestCoverage.CachedHowOften | src/fingerprints/face_ann_cache.rs:207-210 | a face is cached once if the rebuild read it and once more for each time a task added it |
| IngestCoverage.ReadAndAddedIsListedTwice | src/fingerprints/ingest_photo.rs:232-304 | a face that the rebuild read and a task then added is listed twice |
| IngestCoverage.NothingIsLost | src/fingerprints/face_ann_cache.rs:306-320 | once ready, every stored face is cached, or a running task has still to add it, or the rebuild did not read it and a task carrying it failed while planning or waiting for the lock |
| IngestCoverage.MissingIff | src/fingerprints/ingest_photo.rs:232-304 | a stored face that no running task will add is missing from the cache exactly when the rebuild did not read it and every task carrying it failed before adding any face |
| IngestCoverage.EarlyFailureLosesFace | src/fingerprints/ingest_photo.rs:171-204 | a run in which this happens |
| IngestMachine.QueriesSeeEarlierAdds | src/fingerprints/face_ann_cache.rs:245-263 | a query begun at one moment reads, at a later one, an index over a prefix of the entries that holds every entry of the first moment |
| IngestMachine.ResolverTrustsIngest | src/fingerprints/ingest_photo.rs:254-311 | on every store that interleaved, possibly failing ingests leave, in any life of the process, every answer is the exact component, has no dangling edge, and reports only seeds as missing |
| IngestMachine.StoreInvServesResolver | src/fingerprints/resolver.rs:268-305 | the producers' invariant gives endpoint-keyed rows, no dangling row, and existing far ends |
| IngestSymmetry.QuietRowsAreSymmetric | src/fingerprints/ingest_photo.rs:276-300 | from a store with symmetric rows, when no record write failed and none is pending, rows are symmetric again, so single-seed results partition the fingerprints |
| IngestSymmetry.StepKeepsBalanced | src/fingerprints/writer.rs:124-156 | every stored row has its mate in the store or among some task's unwritten records |
| LiveResolver.LiveStepKeepsInv | src/fingerprints/resolver.rs:241-307 | each query of a resolution keeps what is visited reachable, what is met known, and nothing of the first store dropped |
| LiveResolver.LiveResultLiesBetween | src/fingerprints/resolver.rs:241-307 | when records are added between the queries of a resolution, it reports no dangling edge, reports as missing only seeds absent from the first store, and its result lies between the components of the first and the last store |
| LiveResolver.LiveAgreesOnQuietStore | src/fingerprints/resolver.rs:241-307 | on every store, when nothing changes, the queries one by one end in the very state of `resolve`: visited fingerprints, met edges, counters and lists |
| ResolveDuringIngest.RewriteIsSame | src/fingerprints/ingest_photo.rs:259-300 | writing an edge id again writes the same edge: same ends, kind and weight |
| ResolveDuringIngest.ResolvesBetween | src/fingerprints/resolver.rs:241-307 | a resolution interleaved in any way with ingests, failing ones included, reports no dangling edge, reports as missing only seeds absent at its first query, and lies between the components of its first and last store |
| ViewLoader.LoadViewRecursive | src/fold_node/node.rs:563-688 | every error comes with a dependency path that justifies it: a circular report names a view already on the active chain; success collects a complete leaf-first list |
| ViewLoader.LoadSources | src/fold_node/node.rs:639-680 | after the source loop every source is local, a queued schema or a queued view |
| ViewLoader.Fetch | src/fold_node/node.rs:521-529 | outcome of the fetch phase, which touches no local store |
| ViewLoader.LoadsIff | src/fold_node/node.rs:558-688 | loading succeeds exactly when everything needed is present, no dependency path closes a cycle, and the first path to each view in listing order is within the depth limit |
| ViewLoader.FirstPathIsUnique | src/fold_node/node.rs:639-680 | without cycles there is one first path to each view |
| ViewLoader.ShallowPresentLoads | src/fold_node/node.rs:558-688 | when every dependency path has at most 16 edges and everything is present, loading succeeds, diamonds included |
| ViewLoader.ShallowLoadsIffPresent | src/fold_node/node.rs:558-688 | within the depth limit, loading succeeds exactly when every needed view and output schema is on the service |
| ViewLoader.SuccessMeansPresentAndAcyclic | src/fold_node/node.rs:563-688 | success implies that every reachable view was present and that no dependency path closes a cycle |
| ViewLoader.DependencyComesFirst | src/fold_node/node.rs:639-688 | a dependency of a queued view is queued strictly before it |
| ViewLoader.ViewKeepsCollected | src/fold_node/node.rs:681-688 | appending a view whose sources are settled keeps names distinct and every source settled strictly earlier |
| ViewLoader.QueuedSchemaIsWanted | src/fold_node/node.rs:617-674 | only schemas are queued that the service has and that a queued view misses as its output schema or as a source |
| ViewLoader.WantedSchemaIsQueued | src/fold_node/node.rs:617-674 | every schema that a queued view misses is queued, unless it is a source for which a view of that name is |
| ViewLoader.QueuedHowOften | src/fold_node/node.rs:617-674 | noted are exactly the local sources of the queued views, as often as listed; a schema is queued once for each view whose missing output schema it is and at most once more |
| ViewLoader.SchemaManager.LoadViewFromService | src/fold_node/node.rs:521-555 | a fetch failure leaves the store unchanged; otherwise schemas, then views, are registered in order up to the first refusal, which is the error returned; with none the call succeeds; in every case each newly registered view finds its sources and output schema |
| ViewLoader.AllAcceptedRegisters | src/fold_node/node.rs:530-554 | when everything queued is accepted nothing is refused and exactly what was queued is added |
| ViewLoader.RefusalMeans | src/fold_node/node.rs:530-552 | the error names the first refused schema, and a view only when every schema is accepted |
| ViewLoader.SchemaManager.RegisterViews | src/fold_node/node.rs:541-552 | registers exactly the queued views before the first refused one, and no registered view lacks a source |
| AuthRefresh.Refresher.Refresh | src/handlers/auth.rs:545-645 | the stored-key fast path, the throttle gate and the re-register outcome, with the state each leaves |
| AuthRefresh.UnreadableFails | src/handlers/auth.rs:557-558 | an unreadable credential file fails the call and changes nothing |
| AuthRefresh.NewStoredKeyIsReturned | src/handlers/auth.rs:560-577 | a stored key other than the last returned one is returned at once, whatever the throttle holds, and clears it |
| AuthRefresh.OtherwiseTheGateDecides | src/handlers/auth.rs:583-645 | otherwise a closed gate refuses without a trace, as exhausted from five failures on, and an open one re-registers: a success clears the throttle and is remembered, a failure is counted and timed |
| AuthRefresh.ReturnedKeyGoesStale | src/handlers/auth.rs:560-645 | a call that returns a key remembers it, so the next call with that key stored re-registers |
| AuthRefresh.RemembersLastKey | src/handlers/auth.rs:560-645 | what is remembered after any run is the last key returned |
| AuthRefresh.NoKeyTwiceFromStore | src/handlers/auth.rs:560-577 | a stored key is never handed out when it is the one handed out last |
| AuthRefresh.WaitTable | src/handlers/auth.rs:480-491 | the waits are none, 1, 2, 4 and 8 seconds, then an hour |
| AuthRefresh.HeldBackIff | src/handlers/auth.rs:494-503 | an attempt is held back exactly for the rest of the wait since the last one; a clock that went back counts as none passed |
| AuthRefresh.AttemptsAreThrottled | src/handlers/auth.rs:480-521 | without a success the n-th network attempt comes at least 2^(n-1)-1 seconds after the first for n <= 5 and 15+3600(n-5) from then on, for any clock values |
| AuthRefresh.BoundIsAttained | src/handlers/auth.rs:480-521 | an eager caller makes every attempt at exactly that instant |
| AuthRefresh.FailingRun | src/handlers/auth.rs:583-645 | the throttle counts the attempts, remembers the last one, and spaces consecutive ones by the required wait |
| AuthRefresh.WaitIsMonotone | src/handlers/auth.rs:480-491 | more failures never shorten the wait |
| AuthRefresh.CooldownIsExact | src/handlers/auth.rs:494-503 | the reported cooldown counts down with the clock and the attempt is allowed when it ends |
| AuthRefresh.SuccessResets | src/handlers/auth.rs:513-516 | after a success the next stale-key call reaches the network at once |
| Identity.NoSilentRotation | src/identity.rs:91-189 | over any run with keys, keychain and build flavour changing arbitrarily, a stored public key never changes and all returned identities are the same |
| Identity.NoSilentRotationOfEncodedKeys | src/identity.rs:49-66 | the same for private keys that are base64 text, as generated ones are |
| Identity.StoredTreeIsFrozen | src/fold_node/node.rs:92-115 | once a public key is stored beside a private one, no call changes the tree |
| Identity.PublicKeyIsSafeIffPaired | src/identity.rs:226-243 | a stored public key is safe from every call exactly when a private key is stored with it |
| Identity.ReadsBackOrFails | src/identity.rs:263-297 | sealing and reading under any keys yields the original or an error, never another key |
| Identity.ReadsBackIff | src/identity.rs:263-297 | sealing and reading under one key yields the original exactly when there is a key or the plaintext does not look sealed |
| Identity.NeverAnotherKeyIff | src/identity.rs:263-297 | no reader is ever given another key exactly when there is a sealing key or the plaintext is no sealed text of another one |
| Identity.EncodedKeyReadsBack | src/identity.rs:263-297 | base64 private keys read back as themselves or not at all |
| Identity.ReadsAgree | src/identity.rs:276-297 | two successful reads of one stored value agree, whatever keys they used |
| Identity.SealedLookingPlaintextMisreads | src/identity.rs:276-297 | a plaintext that starts with the sealed marker can read back as another key |
| Identity.Base64IsNotSealed | src/identity.rs:50-55 | base64 text never starts with the sealed marker |
| Identity.GroupMeans | src/identity.rs:49-54 | three bytes are written as four characters that spell the same 24-bit number |
| Identity.RestMeans | src/identity.rs:49-54 | one or two left-over bytes are followed by zero bits and padded with equals signs |
| Identity.RefusesWithoutKey | src/identity.rs:144-189 | a sealed identity without a resolvable key makes every call refuse and change nothing |
| Identity.ProvisionSealsFromTheStart | src/identity.rs:349-363 | on keychain builds a freshly provisioned key is sealed, and an existing keychain entry is never overwritten |
| Identity.Device.SetTree | src/identity.rs:245-252 | private key first, then public key, stopping at a write fault |
| Identity.Device.InitializeKeychain | src/secure_store.rs:125-138 | returns an existing key, mints and stores one only when there is none, reports access errors |
| Identity.Device.ProvisionIdentity | src/identity.rs:349-363 | loads or mints; answer and new state |
| Identity.Device.ResolveIdentity | src/fold_node/node.rs:92-115 | stored identity, else the seed, else a fresh one; answer and new state |
| Identity.StoredIdentityWins | src/fold_node/node.rs:92-100 | a device that holds an identity answers it, or why it cannot be read, and changes nothing |
| Identity.SeedIsAdopted | src/fold_node/node.rs:101-114 | a device that holds none takes the seed, or without one the fresh identity, answers and stores it, and a load in the same surroundings reads it back |
| Identity.FailedBootKeepsPublicKey | src/fold_node/node.rs:92-114 | when opening or writing fails, so does the call, and the public key stays as it was |
| Identity.ProvisionMints | src/identity.rs:349-363 | on an empty device with an empty, writable keychain the minted key is stored and the fresh identity sealed under it, answered and read back |
| Identity.ProvisionWithoutKeychain | src/identity.rs:349-363 | on a build without a keychain the keychain is never touched and without an environment key nothing is sealed |
| Identity.FailedProvisionKeepsPublicKey | src/identity.rs:349-363 | a failing initialization or write fails the call and stores no public key |
| Identity.MasterKeyIff | src/secure_store.rs:71-107 | the environment key wins, the keychain is asked only on builds that have one, and a bad source is an error |
| Identity.ResolvedKeyIff | src/identity.rs:144-189 | without a key a sealed identity is refused and an unsealed one read without |
| Identity.InitializedKey | src/secure_store.rs:125-138 | a found key is kept; otherwise one is minted and stored, or the call fails; no entry is overwritten |
| Identity.DecryptMeans | src/identity.rs:276-297 | text without the marker is read as it is; sealed text is opened or refused |
| Identity.EncryptMeans | src/identity.rs:263-274 | a private key is stored plain exactly when there is no key |
| Identity.GetMeans | src/identity.rs:226-243 | an identity is read exactly when both keys are stored |
| Moments.GenerateMomentHashes | src/discovery/moments.rs:187-217 | three hours by the cell and its neighbours, in order, labelled with the primary bucket and cell; nothing for invalid coordinates |
| Moments.HashesMean | src/discovery/moments.rs:187-217 | the hashes of a located photo are those of the texts `hour|cell` for its hour, the one before and the one after, by its cell and the cells around, labelled with its own hour and cell |
| Moments.HashesCount | src/discovery/moments.rs:187-217 | three hours by one more than the neighbours: 27 with eight of them |
| Moments.HourIsFloor | src/discovery/moments.rs:106-114 | an hour runs from its first second to the next hour, before the epoch too |
| Moments.LocatedIff | src/discovery/moments.rs:187-192 | a photo is located exactly when its coordinates are within 90 and 180 degrees and can be encoded |
| Moments.MomentHashIsInjective | src/discovery/moments.rs:152-158 | a moment hash determines its hour and cell |
| Moments.ShareHashIff | src/discovery/moments.rs:187-217 | located photos share a hash exactly when their hours are at most 2 apart and their neighbourhoods intersect |
| Moments.NearPhotosMatchFarOnesDoNot | src/discovery/moments.rs:183-217 | at most one hour apart in equal or neighbouring cells always match; three or more hours apart never do |
| Moments.SaveMomentHashes | src/discovery/moments.rs:300-334 | first entry of each hash in order, then eviction from the front |
| Moments.SaveIsCappedAppend | src/discovery/moments.rs:300-334 | a save leaves a duplicate-free list within the cap, a suffix of the old list followed by new hashes in first-seen order |
| Moments.StoredHashSurvivesIff | src/discovery/moments.rs:313-325 | a stored hash survives a save exactly when the list, from its position on, and the new hashes fit the cap |
| Moments.NewHashSurvivesIff | src/discovery/moments.rs:313-325 | a hash that a batch introduces survives exactly when it and the new hashes after it fit the cap |
| Moments.NewHashesSurvive | src/discovery/moments.rs:320-325 | when the batch fits the cap, no hash it introduces is evicted by its own save |
| Moments.RepeatedHashMayBeEvicted | src/discovery/moments.rs:320-325 | a hash that was already stored can be evicted by the save that repeats it |
| Moments.SavesOverAnyRun | src/discovery/moments.rs:300-340 | over any batches the list is duplicate-free and capped; while the cap is never exceeded it equals all distinct hashes |
| Moments.OverlapsAreTheSharedOnes | src/discovery/moments.rs:221-234 | overlaps are exactly our hashes that the peer sent |
| Moments.MomentStore.SaveOurMomentHashes | src/discovery/moments.rs:300-334 | the stored list becomes the saved one, or stays when the write fails |
| Moments.MomentStore.DetectSharedMoments | src/discovery/moments.rs:427-470 | saves and returns one moment for each bucket and cell among the matches, in order; a failing write leaves exactly the moments before it saved |
| Moments.RepresentativesAreExact | src/discovery/moments.rs:446-451 | one match is kept for each bucket and cell among the matches |
| Moments.RepresentativesSnoc | src/discovery/moments.rs:440-450 | a match is kept exactly when it is the first with its bucket and cell |
| Moments.MomentMeans | src/discovery/moments.rs:452-463 | each moment shows the hour, cell, record and time of its match, under its fresh id |
| Moments.PutAllStores | src/discovery/moments.rs:464-465 | every moment is stored under its own id |
| Moments.PutAllLeaves | src/discovery/moments.rs:464-465 | no other entry is touched |
| Moments.SharedHashIsDetected | src/discovery/moments.rs:427-470 | whenever a saved photo and a peer's photo share a hash, something is detected, if the cap was never exceeded |
| Moments.ReportedIff | src/discovery/moments.rs:300-470 | while the cap was never exceeded, the moments reported are those whose bucket and cell label an entry that came first for some hash the peer sent |
| Moments.EarlierPhotoTakesTheMoment | src/discovery/moments.rs:313-319 | a photo that meets a peer's can have its own moment unreported, because an earlier photo's label holds the shared hashes |
| Moments.DetectedIffPhotosMeet | src/discovery/moments.rs:187-470 | when what was saved are our photos' hashes and the cap was never exceeded, something is detected exactly when one of our photos and one of the peer's are at most 2 hours apart with intersecting neighbourhoods |
| CalendarSharing.SimilarityIsSymmetricAndBounded | src/discovery/calendar_sharing.rs:321-332 | similarity is symmetric and in [0, 1] |
| CalendarSharing.SimilarityMeans | src/discovery/calendar_sharing.rs:321-332 | time weighs 0.4, the title 0.35 and the location 0.25; without common time nothing counts |
| CalendarSharing.SimilarityTable | src/discovery/calendar_sharing.rs:321-332 | events at identical times score 0.4, with the same title 0.75, with the same place 0.65, with both 1 |
| CalendarSharing.DateScoreMeans | src/discovery/calendar_sharing.rs:289-298 | the date score is the common time by the longer duration |
| CalendarSharing.JaccardMeans | src/discovery/calendar_sharing.rs:302-318 | the token score is the number of shared tokens by the number of all |
| CalendarSharing.MatchNeedsTimeAndToken | src/discovery/calendar_sharing.rs:321-332 | a match overlaps in time and shares a title or location token |
| CalendarSharing.DateScoreRange | src/discovery/calendar_sharing.rs:266-298 | the date score is in [0, 1] and positive exactly when the ranges have a second in common |
| CalendarSharing.JaccardRange | src/discovery/calendar_sharing.rs:302-318 | the token score is symmetric, in [0, 1], and positive exactly when a token is shared |
| CalendarSharing.NoteKeepsTable | src/discovery/calendar_sharing.rs:345-373 | recording one match keeps the table exact |
| CalendarSharing.Accumulate | src/discovery/calendar_sharing.rs:339-376 | the triple loop leaves an entry exactly for each matched local hash |
| CalendarSharing.DetectSharedEvents | src/discovery/calendar_sharing.rs:335-380 | each matched hash once, with exactly its matching peers, a count equal to their number, the largest score among those peers' first matches, the description of the local event of the first match, largest count first |
| CalendarSharing.EntryDescribesFirstEvent | src/discovery/calendar_sharing.rs:345-358 | an entry describes the first local event of its hash that any peer matches |
| CalendarSharing.Origin | src/discovery/calendar_sharing.rs:339-344 | every match of the loop is a pair of events that scores at least the threshold |
| CalendarSharing.EveryPairIsMet | src/discovery/calendar_sharing.rs:339-344 | every pair of events that scores at least the threshold is a match |
| CalendarSharing.ReportedConnectionIsReal | src/discovery/calendar_sharing.rs:345-373 | a reported connection really overlaps in time and words, and the reported score is in [0.5, 1] |
| UploadTracking.DecodeAfterEncode | src/discovery/publisher.rs:22-24 | tracking keys decode to what was recorded, for every schema name, colons included |
| UploadTracking.EncodeAfterDecode | src/discovery/publisher.rs:55-69 | only a tracking key decodes, and only to its own parts |
| UploadTracking.KeyIs | src/discovery/publisher.rs:22-24 | the shape of a tracking key |
| UploadTracking.UuidExamples | src/discovery/publisher.rs:62-66 | what counts as the written form of a pseudonym |
| UploadTracking.ScanMatches | src/discovery/publisher.rs:44-51 | a schema's scan reaches its own keys and those of schemas named by extending it with a colon |
| UploadTracking.ListUploaded | src/discovery/publisher.rs:40-73 | fails exactly when a scanned key does not decode; otherwise lists exactly the tracked pairs the scan reaches |
| UploadTracking.SchemaListingIsExactIff | src/discovery/publisher.rs:40-73 | a schema's listing is exact exactly when no other tracked schema extends its name with a colon |
| UploadTracking.TableOverAnyRun | src/discovery/publisher.rs:27-88 | over any run of records, publishes and clears, complete or stopped by a failure, the table holds exactly what was recorded and not cleared since |
| UploadTracking.ListingOverAnyRun | src/discovery/publisher.rs:40-73 | after any such run a listing succeeds and returns exactly what was recorded and not cleared since, within the reach of its scan |
| UploadTracking.EmbeddingScanReaches | src/discovery/publisher.rs:160-164 | the embedding scan of a schema takes in the rows of every schema that extends its name with a colon |
| UploadTracking.EmbeddingRowsMean | src/discovery/publisher.rs:160-164 | the rows read are exactly those under `emb:`, the schema and a colon |
| UploadTracking.PublishedStaysListed | src/discovery/publisher.rs:10-19 | after a publish that returned Ok every pseudonym it uploaded stays listed until a clear removes it, whatever happens to other rows |
| UploadTracking.Tracker.ClearUploaded | src/discovery/publisher.rs:79-88 | succeeds exactly when the listing and every delete do, and then clears exactly the scan; changes nothing when the listing fails; deletes exactly the keys before a failing delete |
| UploadTracking.ClearIsEvent | src/discovery/publisher.rs:79-88 | a clear that fails at a delete is the partial event that runs assume |
| UploadTracking.BuildUploads | src/discovery/publisher.rs:166-285 | the text pass, then the face pass, and the skipped count |
| UploadTracking.UploadedIff | src/discovery/publisher.rs:166-285 | a pseudonym is uploaded exactly for a row with an embedding whose field is neither the face field nor never to be published, a legacy row counting as the schema's own field, or for a face row when faces are published |
| UploadTracking.UploadsCount | src/discovery/publisher.rs:166-285 | one upload for each such text row and each such face row |
| UploadTracking.SkipsCount | src/discovery/publisher.rs:166-205 | skipped are the rows that do not parse, have no embedding or are never to be published, the face field aside |
| UploadTracking.Tracker.PublishSchema | src/discovery/publisher.rs:144-350 | scans the rows, uploads the publishable ones and records every uploaded pseudonym; the counts it returns; a failed upload changes nothing, a failed tracking write leaves exactly the prefix before it recorded |
| UploadTracking.OutcomeIsEvent | src/discovery/publisher.rs:334-350 | a publish that returns Ok, or fails to record, leaves the table that runs assume |
| UploadTracking.Tracker.DeriveSchemaPseudonyms | src/discovery/publisher.rs:353-382 | derives a pseudonym for each scanned row with an embedding, in order |
| UploadTracking.DerivedCoversUploads | src/discovery/publisher.rs:353-382 | deriving from the same store, scanned in any order, covers everything that was uploaded |
| SentRequests.SentStore.SaveSentRequest | src/discovery/connection.rs:430-441 | overwrites the row of that request id or adds one |
| SentRequests.PutOverwrites | src/discovery/connection.rs:430-441 | a save overwrites the row of its id |
| SentRequests.PutAdds | src/discovery/connection.rs:430-441 | without one it adds the row, and the others keep their order |
| SentRequests.PutKeepsKeyed | src/discovery/connection.rs:430-441 | saving keeps rows under their own unique request ids |
| SentRequests.SentStore.UpdateSentRequestStatus | src/discovery/connection.rs:473-507 | changes the status of the first pending row the reply names, returns it, and changes nothing else |
| SentRequests.UpdateMeans | src/discovery/connection.rs:473-507 | the first pending row that the reply names, by id or for want of one by target, gets the reply's status and keeps everything else; all other rows stay |
| SentRequests.UpdateWithoutMatch | src/discovery/connection.rs:473-507 | a reply that names no pending row changes nothing |
| SentRequests.UpdateChangesAtMostOneRow | src/discovery/connection.rs:473-507 | a call changes at most one row, and there only the status |
| SentRequests.FirstReplyWins | src/discovery/connection.rs:473-507 | each pending row ends with the status of the first reply naming it; all other rows are untouched |
| SentRequests.ReplyOrderDoesNotMatter | src/discovery/connection.rs:473-507 | replies with distinct ids give the same store in any order |
| SentRequests.LegacyReplySettlesFirstPending | src/discovery/connection.rs:485-490 | a reply without an id changes exactly the first pending row for its target |

## Left out

- Store and network errors inside `resolve`, `fetch_edge` shape errors and the tracing output.
- The JSON behind a registry row, and a registry query that is not one atomic read.
- HNSW recall and the order of hits: the search is a black box over the list its index was built from.
- f32 and f64 rounding, NaN and the square root of `FaceEmbedding::new`: reals, with the norm given.
- Fingerprint ids as hashes of raw bytes: a face carries its id, of the one length all such ids have; that an id stands for one embedding is a hypothesis of `ResolveDuringIngest` alone.
- Text extractors, contact import and identity cards as further producers of edges.
- Cancellation of an ingest task anywhere but while it waits for the lock or for the rebuild query.
- The conversion of a stored view to a local one and schema serialization, which are taken to succeed: the queued view is the stored one.
- Errors of the schema service other than absence, and rollback of a half-finished registration.
- Overlapping auth-refresh calls: the gate and the recording of the attempt take the lock separately.
- `save`, `clear` and the master-key deletion of the identity store: they replace or remove the identity on purpose.
- UTF-8 and hex decoding, AES-GCM, HKDF, geohash and calendar tables.
- UUID spellings that the parser accepts but the publisher never writes.
- The scan order of prefix scans, except for sent requests, where the first pending row matters.
- That a shared event's score is the largest over all matching pairs: the code compares scores only on a peer's first match, so it is the largest over those.
- Opt-ins, previews, response envelopes, org, sharing and feed handlers, configuration, logging: plumbing or easy members.
