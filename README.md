# kafka-kit broker model in Dafny

This project models the broker layer of kafka-kit's `kafkazk` package, `kafkazk/brokers.go`. The layer holds the brokers that topicmappr's placement logic works with. It has these parts:

- **The broker map and its values.** A `BrokerMap` maps broker IDs to brokers. Each broker has an ID, a rack ("locality"), a replica count ("Used"), free storage, and three flags: `Replace`, `Missing` and `New`. Broker ID 0 is a reserved stub that means "must be replaced".
- **`Update`** reconciles the map with a target broker list and live broker metadata. It does this in three passes:
  1. Missing metadata: previous brokers without metadata are flagged Replace and Missing.
  2. Removal: previous brokers that are not targets are flagged Replace.
  3. Addition: targets not yet in the map are created as New brokers, or are reported as not found.

  A final pass logs every New broker. `Update` returns a `BrokerStatus` with four counters (New, Missing, OldMissing, Replace) and a log of audit messages.
- **`BrokerMapFromPartitionMap`** builds a map from the replica lists of a partition map. It counts replica slots into Used, unless a forced rebuild is requested. It copies rack and free storage from the metadata and always installs the stub broker 0 with Replace set.
- **`SubStorage`** adds each partition's size back to the free storage of every replica broker that a predicate selects. It fails when a size lookup fails or a replica names an unknown broker.
- **The readers.** `Filter`, `List` and `Copy` read the map, and `Broker.Copy` and `BrokerStatus.Changes` work on single values.
- **Broker lists.** A broker list can be sorted by count, by free storage or by ID. `SortPseudoShuffle` sorts by count and then shuffles each run of brokers with equal Used.

Files and modules:

- `types.dfy` (module `BrokerTypes`) holds the value types: brokers, metadata, the status counters, the audit events and partitions. It also holds the partition size lookup.
- `reconcile.dfy` (module `Reconcile`) states the reconciliation on values. Each pass is a function of the map before it. It also defines the counters, the reported events, and the bound on the number of events. The lemmas here carry the properties of `Update`.
- `capacity.dfy` (module `Capacity`) states the map built from a partition map, and `SubStorage`, on values. It proves their contents, error cases and storage gains.
- `brokers.dfy` (module `Brokers`) holds the class `BrokerMap` with a `brokers: map<int, Broker>` field.
  - `Update`, `SubStorage` and the construction from a partition map change the map step by step in loops, as the Go code does. Each is proved to produce exactly the function that `Reconcile` or `Capacity` defines.
  - `Filter`, `List` and `Copy` build their results in accumulating loops.
- `brokerlist.dfy` (module `BrokerList`) holds the three orders and the in-place sorts over `array<Broker>`. It also holds the pseudo-shuffle, with lemmas that pin down what each result can be.

Inputs the Go code gets from outside are parameters here:

- the metadata map;
- the partition map, as a sequence of partitions;
- the partition size map;
- the selection predicate;
- the random source of the shuffle, as a stream `rng: nat -> nat`.

Some behaviour of the code is easy to miss. The model keeps it as written:

- **ID 0 in the addition pass.** The missing-metadata pass and the removal pass skip broker ID 0 (kafkazk/brokers.go:203 and 228). The addition pass (kafkazk/brokers.go:240-273) does not. If 0 is a target and the map lacks it, 0 is handled like any other target. It is created as a New broker when metadata is empty or has an entry for 0. Otherwise it is reported not found and counted as Missing (kafkazk/brokers.go:268-270). `Reconcile.ReconciledAbsent` states this with no exception for 0.
- **Brokers flagged twice.** A previous broker other than 0 is visited by both flagging passes when two things hold: it is not a target, and it has no entry in non-empty metadata. It gets Replace and Missing, is counted as OldMissing (kafkazk/brokers.go:216) and again as Replace (kafkazk/brokers.go:233), and emits two messages (kafkazk/brokers.go:208 and 235). For the map {1,2,3}, targets [2,3,4] and metadata for 2, 3 and 4, the counters are New 1, Missing 0, OldMissing 1 and Replace 1. `Reconcile.MissingAndRemoved` states this.
- **New is never cleared.** `Update` sets New only on brokers it creates and never resets it (kafkazk/brokers.go:240-273). A broker other than 0 that is already New when `Update` runs, and lacks an entry in non-empty metadata, ends both New and Missing. It is logged as missing and as new. `Reconcile.NewAndMissing` states this, and it is why `Reconcile.NewEventsAreCreations` assumes no input broker is New.
- **Repeated `Update` calls count again.** A second `Update` with the same inputs flags the same brokers again and counts each of them again. It also counts the same not-found targets again as Missing (kafkazk/brokers.go:207-236 and 268-269). So its status reports a change whenever the first call's Missing, OldMissing or Replace was non-zero. Only a first call that did nothing but create brokers is followed by an all-zero status. `Reconcile.ReconcileTwiceSameMap` proves that the second call leaves the map unchanged. `Reconcile.ReconcileTwiceCounts` proves that its counters are the first call's with only New reset to 0.

## Model

| member | source | states |
|---|---|---|
| BrokerTypes.BrokerStatus.Changes | kafkazk/brokers.go:66-73 | A status reports a change exactly when some counter is non-zero. |
| BrokerTypes.Broker.Copy | kafkazk/brokers.go:403-413 | The copy equals the original in every field. |
| Reconcile.MissingPass | kafkazk/brokers.go:200-220 | Defines the missing-metadata pass: with metadata in use, every previous broker other than 0 that has no metadata entry gets Replace and Missing. Nothing else changes. |
| Reconcile.RemovalPass | kafkazk/brokers.go:224-237 | Defines the removal pass: every broker other than 0 that is not a target gets Replace. Nothing else changes. |
| Reconcile.AdditionPass | kafkazk/brokers.go:240-273 | Defines the addition pass: every target absent from the map is inserted as a New broker when metadata is empty or knows it. Existing entries are kept. |
| Reconcile.Reconciled | kafkazk/brokers.go:198-273 | Defines the map after the three passes in order. Its meaning is given by ReconciledExisting, ReconciledAbsent and ReconciledKeys. |
| Reconcile.Status | kafkazk/brokers.go:189-273 | Defines the four counters: created targets; missing targets plus not-found targets; non-target missing brokers; removed brokers. StatusAccounting relates them. |
| Reconcile.Reported | kafkazk/brokers.go:198-280 | Defines which events a reconciliation reports: PrevMissing per missing-metadata broker, MarkedForRemoval per removed broker, NotFound per not-found target, NewBroker per broker that is New afterwards. |
| Reconcile.MissingPassDisabled | kafkazk/brokers.go:200-220 | With empty metadata the missing-metadata pass changes nothing. |
| Reconcile.ReconciledExisting | kafkazk/brokers.go:200-237 | A previous broker stays, and only its flags change. Replace is set exactly when its ID is not 0 and it lacks metadata (with metadata in use) or is not a target. Missing is set exactly when its ID is not 0 and it lacks metadata. Flags already set stay set. |
| Reconcile.ReconciledAbsent | kafkazk/brokers.go:240-273 | An ID not in the map is present afterwards exactly when it is a target and metadata is empty or has an entry for it. It is then a New broker with Used 0 and no Replace or Missing flag, and its rack and free storage come from the metadata (empty and 0 when there is none). |
| Reconcile.ReconciledKeys | kafkazk/brokers.go:240-273 | The keys after reconciliation are the previous keys plus the created IDs. Existing entries are never dropped. |
| Reconcile.ReconciledKeysAreIds | kafkazk/brokers.go:188-285 | Every key keeps naming its own broker through a reconciliation. |
| Reconcile.StatusAccounting | kafkazk/brokers.go:207-271 | Each previous broker without metadata is counted exactly once, as Missing if it is a target and as OldMissing if not. Each target absent from the map is counted exactly once, as New or as Missing. |
| Reconcile.MetadataDisabled | kafkazk/brokers.go:245-253 | With empty metadata, Missing and OldMissing are 0. New is the number of targets absent from the map, and no missing or not-found event is reported. |
| Reconcile.NothingCounted | kafkazk/brokers.go:66-73 | All-zero counters mean no broker was flagged missing, removed or created. |
| Reconcile.NoChangeNoEffect | kafkazk/brokers.go:188-285 | When the counters report no change, the map is exactly as before. |
| Reconcile.ReconcileTwiceSameMap | kafkazk/brokers.go:188-285 | Reconciling the result again with the same inputs leaves the map unchanged. |
| Reconcile.ReconcileTwiceCounts | kafkazk/brokers.go:207-236 | The second reconciliation's counters equal the first's with New set to 0, so flagged brokers are counted again. |
| Reconcile.NewEventsAreCreations | kafkazk/brokers.go:276-280 | When no input broker is New, the NewBroker events name exactly the created brokers, and no broker ends both New and Missing. |
| Reconcile.MissingAndRemoved | kafkazk/brokers.go:200-236 | A previous non-target broker other than 0 that lacks an entry in metadata in use is flagged by both passes. It ends Replace and Missing, is in both the OldMissing and the Replace count, and is reported as missing and as marked for removal. |
| Reconcile.NewAndMissing | kafkazk/brokers.go:200-280 | A previous broker that is already New and lacks an entry in metadata in use keeps New and also gets Missing. It is reported both as missing and as a new broker. |
| Reconcile.AddedStep | kafkazk/brokers.go:240-267 | Handling one more target adds it to the created set exactly when it is absent and metadata is empty or knows it. |
| Reconcile.NotFoundStep | kafkazk/brokers.go:268-271 | Handling one more target adds it to the not-found set exactly when it is absent and metadata is in use but lacks it. |
| Reconcile.MissingStep | kafkazk/brokers.go:201-210 | Visiting one more key adds it to the missing set exactly when it is not 0 and lacks metadata. |
| Reconcile.MissingSplitStep | kafkazk/brokers.go:213-217 | Such a key adds one to Missing when it is a target and one to OldMissing when it is not. |
| Reconcile.ChannelCapacity | kafkazk/brokers.go:190 | The buffer the code allocates: one slot per previous broker plus three per target list entry. |
| Reconcile.MessageCapacity | kafkazk/brokers.go:190-280 | The corrected buffer size: three slots per previous broker plus one per target list entry. EventsFitCapacity proves it holds every event. |
| Reconcile.ChannelOverflows | kafkazk/brokers.go:190 | There is an input for which the reconciliation emits more events than the buffer the code allocates (see Findings). |
| Reconcile.EventsFitCapacity | kafkazk/brokers.go:198-280 | Every reconciliation emits at most three events per previous broker plus one per target list entry, which is the corrected size MessageCapacity. |
| Capacity.ReplicasCount | kafkazk/brokers.go:347-365 | The multiplicity of an ID among all replica slots is its number of occurrences across the partitions. |
| Capacity.ReplicasHolds | kafkazk/brokers.go:347-357 | An ID occurs among the replica slots exactly when some partition lists it. |
| Capacity.FromPartitionMapKeysAreIds | kafkazk/brokers.go:344-382 | Every key of the built map names its own broker. |
| Capacity.FromPartitionMapContents | kafkazk/brokers.go:344-382 | The keys are 0 plus every replica ID. Entry 0 is the stub with Replace set. Every other broker has Used equal to its number of replica slots (0 under force), carries no flag, and takes its rack and free storage from the metadata when present. |
| Capacity.FromPartitionMapSpec | kafkazk/brokers.go:344-382 | Defines the built map: one broker per replica ID across all partitions, with its slot count as Used (0 under force) and its metadata fields, then the stub 0 installed over any entry for 0. Its meaning is given by FromPartitionMapContents. |
| Capacity.AddBack | kafkazk/brokers.go:300-308 | Defines one partition's inner loop: credit the size to each selected replica broker in list order, stopping at the first replica not in the map. AddBackShape and AddBackGain state its meaning. |
| Capacity.SubStorageSpec | kafkazk/brokers.go:290-312 | Defines SubStorage on values: partition by partition, stopping at the first failed size lookup or unknown broker, keeping the credits made before. SubStorageOutcome and SubStorageGain state its meaning. |
| Capacity.AddBackShape | kafkazk/brokers.go:300-308 | Adding one partition's size back changes only free storage. It fails exactly when some replica is not in the map, and the error names such a replica. |
| Capacity.SubStorageOutcome | kafkazk/brokers.go:290-312 | Only free storage changes. For the error: (1) there is none exactly when every partition's size is known and all its replicas are in the map; (2) a broker error names a replica absent from the map; (3) a size error names a partition whose lookup fails. |
| Capacity.SlotTotalIsProduct | kafkazk/brokers.go:300-304 | A broker's gain from one partition is the size times the number of its slots in that partition. |
| Capacity.AddBackGain | kafkazk/brokers.go:300-308 | After one partition succeeds, a broker the predicate selects has gained the size once per slot it holds. Any other broker is unchanged. |
| Capacity.SubStorageGain | kafkazk/brokers.go:290-312 | After a successful SubStorage, each broker the predicate selects has gained the sizes of all its replica slots. Every other broker is unchanged. |
| Capacity.FromPartitionMapCoversReplicas | kafkazk/brokers.go:344-373 | The built map contains every replica ID, so SubStorage over it fails only on an unknown size. |
| Brokers.BrokerMap.Empty | kafkazk/brokers.go:386 | A new empty broker map. |
| Brokers.BrokerMap.FromPartitionMap | kafkazk/brokers.go:344-382 | The nested loops build exactly the map of Capacity.FromPartitionMapContents, with keys naming their brokers. |
| Brokers.BrokerMap.TallyPartition | kafkazk/brokers.go:350-372 | Recording one partition's replica list extends the built map by those slots. |
| Brokers.BrokerMap.Tally | kafkazk/brokers.go:353-371 | Recording one replica slot creates, counts and annotates exactly as the built map of the slots seen so far plus this one. |
| Brokers.BrokerMap.TargetSet | kafkazk/brokers.go:193-196 | The set built from the target list holds exactly its IDs. |
| Brokers.BrokerMap.MarkMissing | kafkazk/brokers.go:200-220 | The missing-metadata pass yields MissingPass. Its two counters are the sizes of the target and non-target parts. It logs one PrevMissing event per flagged broker and no other event. |
| Brokers.BrokerMap.MarkRemoved | kafkazk/brokers.go:224-237 | The removal pass yields RemovalPass. It counts and logs each broker other than 0 that is not a target exactly once. |
| Brokers.BrokerMap.AddNew | kafkazk/brokers.go:240-273 | The addition pass yields AdditionPass. It counts the created and not-found targets, and logs one NotFound event per unresolved target. |
| Brokers.BrokerMap.LogNew | kafkazk/brokers.go:276-280 | One NewBroker event per broker with the New flag, and no other event. |
| Brokers.BrokerMap.Update | kafkazk/brokers.go:188-285 | It yields the reconciled map, with keys still naming their brokers, and the counters Status. Its log holds exactly the reported events, each once, in pass order. The log's length is the event count, which fits a buffer of three slots per previous broker plus one per target. |
| Brokers.UpdateLog | kafkazk/brokers.go:198-280 | The four pass logs together report exactly the reconciliation's events, without repeats and in pass order. |
| Brokers.EventsOfPasses | kafkazk/brokers.go:198-280 | Logs of four different event kinds, concatenated in pass order, stay free of duplicates and in pass order. |
| Brokers.BrokerMap.SubStorage | kafkazk/brokers.go:290-312 | The nested loops yield exactly the new map and error that SubStorageSpec defines. |
| Brokers.BrokerMap.Filter | kafkazk/brokers.go:316-330 | A key is in the result exactly when it is not 0 and the predicate selects its broker. The result keeps the same brokers under the same keys. |
| Brokers.BrokerMap.List | kafkazk/brokers.go:333-341 | The list holds every broker of the map exactly once, and nothing else. |
| Brokers.BrokerMap.Copy | kafkazk/brokers.go:385-400 | The copy is a fresh map object with the same keys and equal brokers. |
| BrokerList.Less | kafkazk/brokers.go:102-130 | Defines the three comparators: by Used then ID, by descending StorageFree then ID, and by ID. LessIsStrictWeak, LessTotal and SortedMeans state their properties. |
| BrokerList.LessIsStrictWeak | kafkazk/brokers.go:100-130 | Each comparator is irreflexive and asymmetric, and "not after" is transitive. |
| BrokerList.LessTotal | kafkazk/brokers.go:100-130 | Each comparator ranks any two brokers with different IDs, because ties are broken by ID. |
| BrokerList.SortedMeans | kafkazk/brokers.go:100-130 | A list sorted by count has ascending (Used, ID). One sorted by storage has descending StorageFree, with ties by ascending ID. One sorted by ID has ascending IDs. |
| BrokerList.Swap | kafkazk/brokers.go:101 | Exchanging two positions keeps the same brokers. |
| BrokerList.InsertAt | kafkazk/brokers.go:135-147 | Inserting the next broker into the sorted prefix keeps it sorted and keeps the same brokers. |
| BrokerList.Sort | kafkazk/brokers.go:135-147 | The result, sorted in place, is ordered by the chosen order and is a permutation of the input. |
| BrokerList.SortByCount | kafkazk/brokers.go:135-137 | A permutation of the input, ordered by count then ID. |
| BrokerList.SortByStorage | kafkazk/brokers.go:140-142 | A permutation of the input, ordered by descending free storage then ID. |
| BrokerList.SortByID | kafkazk/brokers.go:145-147 | A permutation of the input, ordered by ID. |
| BrokerList.SortedUnique | kafkazk/brokers.go:135-147 | Two sorted arrangements of the same brokers with distinct IDs are equal, so every sort yields the same list. |
| BrokerList.ShuffleRange | kafkazk/brokers.go:172-179 | Shuffling a run keeps the same brokers, keeps Used at every position, and moves nothing outside the run. |
| BrokerList.SortPseudoShuffle | kafkazk/brokers.go:152-182 | A permutation of the input with Used ascending. A list of at most two brokers is sorted by count. |
| BrokerList.SameUsedProfile | kafkazk/brokers.go:152-182 | Any two arrangements of the same brokers with ascending Used agree on Used at every position, so the runs sit at the same positions as after SortByCount. |
| BrokerList.RunsKeepBrokers | kafkazk/brokers.go:165-181 | Between two run boundaries both arrangements hold the same brokers, so each run contains exactly the brokers of that run after SortByCount. |
| BrokerList.PrefixKeepsBrokers | kafkazk/brokers.go:165-181 | Before every run boundary both arrangements hold the same brokers. |

## Left out

- **Shared broker records.** Brokers are values here. In Go, a `BrokerMap` holds `*Broker` references, and `Filter` and `List` return the very same references. A later write through one of them then shows up in the map, and the model does not capture that aliasing. `Copy` in the model makes a fresh map object of equal broker values. Being values, brokers and metadata entries are never nil here. In Go, a nil `*Broker` in the map would panic at lines 209 and 228, and a nil metadata entry at line 263. The code's own callers never build such maps.
- **Message text and the channel.** Audit messages are events of a datatype (`PrevMissing`, `MarkedForRemoval`, `NotFound`, `NewBroker`) returned as a sequence. The formatted text and the buffered channel are not modelled. Within one pass, Go emits events in map iteration order; the model picks an arbitrary order, and its contracts speak of membership, uniqueness and pass order only.
- **Go's seeded random generator.** `SortPseudoShuffle` takes a random stream instead of a seed. A run is permuted by Fisher-Yates swaps drawn from that stream. Go's `rand.Seed` and the exact draws of `rand.Shuffle` are not modelled, and nothing is claimed about determinism for a given seed.
- **Floating point.** StorageFree and partition sizes are real numbers with exact addition. NaN and rounding are not modelled.
- **Integer width.** Used and the counters are unbounded integers. Go's 64-bit `int` cannot overflow at these sizes in practice.
- Brokers.BrokerMap.Update, Brokers.BrokerMap.SubStorage, Brokers.BrokerMap.Filter, Brokers.BrokerMap.List and Brokers.BrokerMap.Copy require `Valid()`. That is, every key names its own broker, which every map the code builds satisfies. Go does not check it. The removal pass and `Filter` index the map by `broker.ID`, so with a mismatched key they would touch another entry or a nil reference.
- Capacity.SubStorageGain and Capacity.AddBackGain require the predicate to ignore free storage. Go calls `f` on the broker as it is being updated. A predicate that reads StorageFree could flip partway through, and the gain lemmas do not cover that case; the exact result is still given by `SubStorageSpec`.
- **The sort algorithm.** `sort.Sort` is replaced by an insertion sort. Go's sort is not stable, so the order it gives equal elements is unspecified. The contracts therefore state sortedness and permutation, and `SortedUnique` shows that for distinct IDs the result is fully determined.
- **`PartitionMetaMap.Size` and `PartitionMap`.** These are defined outside `kafkazk/brokers.go` and are not part of this model. Size is a partial lookup by topic and partition, and a partition map is a sequence of partitions with topic, number and replica list. The error text is not modelled; errors are a datatype naming the partition or broker.
- **`BrokerMeta` fields other than rack and StorageFree, `BrokerMetrics`, and `BrokerUseStatsList`.** The broker logic never reads these metadata fields. `BrokerUseStatsList` only supplies `Len`/`Swap`/`Less` by ID, and nothing in this file sorts with it.
- **The redundant test `len(bm) > 0 && ok` at kafkazk/brokers.go:213.** It is modelled as plain target membership, since that branch runs only when the metadata is non-empty.

## Findings

| source | as written | input that shows it | evidently intended | confidence | as-written member | corrected member |
|---|---|---|---|---|---|---|
| kafkazk/brokers.go:190 | The message channel is buffered for `len(b) + 3*len(bl)` messages. Nothing reads it before `Update` returns, so a send beyond the buffer blocks forever. | A map with the stub 0 and brokers 1 and 2, an empty target list, and metadata only for broker 9. Brokers 1 and 2 are each missing and marked for removal, so there are 4 messages for 3 slots. | A buffer that holds every message. A previous broker can emit three messages and a target one, so `3*len(b) + len(bl)` slots always suffice. | high; not executed | Reconcile.ChannelOverflows | Reconcile.EventsFitCapacity |

A realistic case: the map holds {0,1,2,3,4}, the targets are `[5]`, and only broker 5 has metadata. Brokers 1-4 each emit two messages and broker 5 one, so 9 messages meet a buffer of 8. `Reconcile.ChannelCapacity` is the buffer size as written. `Reconcile.MessageCapacity` is the corrected size, and `Brokers.BrokerMap.Update` proves its log never exceeds it.
