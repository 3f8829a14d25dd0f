# Verification of the reconmesh worker core

This project models five connected parts of the worker SDK and proves what they
guarantee, in Dafny 4.11. `dafny verify dfyconfig.toml` checks all of it.

**Writing results back** (`AssetTable`, `RetryModel`, `Persist`, `BatchStatement`).
The assets table is a map from (scope, kind, value) to a row. Statements are
atomic steps with the conflict action, its guard and the right-biased merge of
the SQL. A worker sends them one by one; each may run and be acknowledged, run
without the worker hearing of it, or never run, and a worker that crashes hears
nothing more. Persisting is not transactional, so the main result is that
retrying from the start converges, under a condition on fingerprints that is shown
to be exact. Below it stand the invariant that the fingerprint guard then never
drops a change and a reading of the multi-row statement's
text and parameters back into the rows that were meant.

**Canonical encodings** (`Values`, `Json`, `Utf8`, `AttrsEncoding`, `FindingHash`).
Values are JSON-like trees with unordered maps. Two canonical forms are hashed:
the one for attributes turns maps into lists of pairs, the one for findings prints
objects. The first one's exact kernel and the second one's exactness are proved
through concrete printers and parsers (RFC 8259, sections 4, 5 and 7).

**DNS cache** (`LinkedLru`, `LruModel`, `CachingResolver`). The ring with its
sentinel and the index map refine a plain recency sequence, and whole runs are
described on that sequence. The resolver drops its lock between lookup and store,
so it is also a step system with one step per locked section and per reply.

**Circuit breaker** (`BreakerModel`, `ProxyClient`). A timed state machine over runs
of locked calls, and the client calls that drive it.

**Configuration** (`ConfigTree`, `SecretPaths`, `ConfigHeap`, `ConfigMerge`,
`ConfigReload`). Config maps are heap objects: the deep merge shares nested maps
with its inputs, and decryption in place writes through the sharing into the
manifest. The values are proved first, then that the heap code realises them.

Conventions. Times are nanoseconds of one monotonic clock, and calls that read it
under a lock happen in the order of their readings. Strings inside JSON are
sequences of Unicode scalar values, which is valid UTF-8; where bytes matter they
are spelled out. Integers are unbounded except where the code cuts them, as in the
32-bit length of a framed field. SHA-256 is a free constructor, that is, taken as
collision free. A secret key is what it decrypts: a partial function on envelopes.
Of PostgreSQL it is assumed that a jsonb object prints with a leading brace, that
`||` is the right-biased union of top-level keys, that new rows get ids that are
not the consumed asset's, and that a statement which would affect a row twice is
refused as a whole. Backend replies, clock readings, fetched rows, parsed URLs and
the fates of statements are parameters. A job's attempts are taken to write the same
result: the worker fetches the asset and runs the tool again for each attempt, and
what is proved of retries holds as far as the tool then answers the same.

Where code and documentation disagree, the model follows the code:

- The breaker's window is anchored at the first failure, not sliding as
  `sdk/proxyclient/breaker.go:30` says, and a threshold of 1 acts as 2.
- A success closes the breaker from every state, not just from half-open
  (`sdk/proxyclient/breaker.go:77-78`).
- An answer whose validity time has passed is kept for the full ttl, against
  `sdk/dns/dns.go:45-47`; a ttl of 0 means five minutes, against
  `sdk/dns/options.go:32-34`.
- Duplicate keys within one chunk make PostgreSQL refuse the statement;
  `worker/tool.go:251-252` says they are merged.
- Attribute fingerprints identify more than finding hashes do, although
  `worker/asset_writer.go:299-301` calls them the same comparator.
- A row takes six parameters (`worker/asset_writer.go:172`), not seven
  (`worker/asset_writer.go:148`), and unlike the batch the single upsert never
  looks at the asset's own parent, although `worker/asset_writer.go:150-151` calls
  the two the same.
- Reloading a config writes decrypted secrets into the manifest's own nested maps,
  although `worker/runtime.go:316-317` stresses that inputs are not mutated; this
  is true of the merge and false of the reload as a whole.

## Model

| member | source | states |
|---|---|---|
| Persist.JobRetryConverges | worker/river_adapter.go:166-191 | A job's writes may be cut off at any statement, any number of times, at any clock values, with statements lost, refused, or executed without an acknowledgement; once one attempt completes, every row of the table has the attributes, fingerprint and parent that a single undisturbed run from the same reachable table gives it, provided that no two of the attribute sets upserted into the table share a fingerprint. |
| Persist.JobsConvergeIff | worker/river_adapter.go:166-191 | That provision is exact: for any set of attribute sets, all jobs that write attributes of the set converge, from all tables reached with attributes of the set, if and only if no two of them share a fingerprint. |
| Persist.UnambiguousJobsConverge | worker/river_adapter.go:166-191 | In particular all jobs converge that, like all upserts before them, carry attributes without a list that could be read as a key-sorted list of pairs. |
| RetryModel.RetryConverges | worker/river_adapter.go:173-178 | The same for any plan of merges and of upserts that carry the fingerprints of their attributes, together with the value both tables have: the plan's unguarded writes applied once to the starting row. |
| RetryModel.ConvergesIff | worker/river_adapter.go:173-178 | For plans too the condition is exact: every plan over a set of attribute sets converges from every table reached over it if and only if no two of them share a fingerprint. |
| RetryModel.CollisionDiverges | worker/asset_writer.go:297-301 | Any two attribute sets that share a fingerprint give a history, a plan and two completed runs of it that end differently. |
| RetryModel.RepeatChangesNothing | worker/river_adapter.go:175-177 | Applying a plan's writes to a row a second time, in the same order, changes nothing, although merges and upserts of one row overwrite each other's keys and fingerprints. |
| RetryModel.PrefixLeavesNoTrace | worker/river_adapter.go:175-177 | A run that was cut off after any prefix and is repeated in full from the start ends like the full run alone. |
| RetryModel.ClosedForm | worker/asset_writer.go:104-112 | What any sequence of upserts and merges makes of a row: the right-most value of every key, the fingerprint of the last upsert or the server digest of the merged attributes, parent and identity unchanged. |
| RetryModel.ExecActs | worker/asset_writer.go:210-217 | On a table where the guard is safe for what is written, a guarded statement does to every row what the unguarded writes of its tuples do, whatever the clock says; only `last_seen` can differ. |
| RetryModel.AttemptRunsPrefix | worker/river_adapter.go:178-191 | An attempt, however it ends, has had the effect of some prefix of the plan, of all of it if it reported success, and leaves the guard safe. |
| RetryModel.CrashLeavesPrefix | worker/river_adapter.go:178-191 | An attempt that is cut off after n statements leaves exactly what those n did, and has failed. |
| RetryModel.UnheardRunsToo | worker/river_adapter.go:178-191 | A statement whose acknowledgement is lost leaves the same table as one that is heard of, a lost one leaves none, and both count as failures. |
| RetryModel.SharedFingerprintDiverges | worker/asset_writer.go:111-112 | On a row that carries the fingerprint of an upsert with other values for the same keys, the same plan ends differently when it runs within the guard's minute and when it runs a nanosecond later. |
| Persist.UndisturbedCompletes | worker/river_adapter.go:178-191 | An undisturbed attempt completes from every table when no chunk names a key twice and no asset lacks its kind or value, so the convergence claim is not empty. |
| Persist.JobCompletesIff | worker/asset_writer.go:173-177 | An undisturbed attempt of a job with distinct new assets completes if and only if every one of them has a kind and a value. |
| Persist.MergeGoesFirst | worker/river_adapter.go:178-191 | A crash right behind the first statement leaves the consumed asset's row enriched and seen, and every other row as it was. |
| Persist.PlanIsGood | worker/river_adapter.go:178-191 | The plan of a job carries matching fingerprints of its new assets' attributes and merges into the consumed asset only. |
| Persist.NewAssetsAreStored | worker/asset_writer.go:152-220 | After a completed attempt, from any table and whatever its statements met, each new asset that the job names once and the table lacked has its row at its scope, kind and value: under its own parent if that parses and otherwise under the consumed asset, with its attributes (none count as empty) and their fingerprint. |
| Persist.RowsStay | worker/asset_writer.go:212-217 | Whatever becomes of an attempt, a row that was there before keeps its id and its parent. |
| Persist.CascadeWorker.Persist | worker/river_adapter.go:178-191 | Persisting a result runs exactly the job's plan on the table, merge first and chunks in order, and stops at the first error; what the plan leaves is said by NewAssetsAreStored, RowsStay and MergeGoesFirst. |
| Persist.CascadeWorker.Work | worker/river_adapter.go:59-164 | When a job leads to writes, and which of its error paths end in another attempt, in none, or in nothing to do; no error path before the tool has finished touches the table. |
| Persist.AssetWriter.MergeUpdate | worker/asset_writer.go:262-285 | An empty delta sends nothing; any other one is one atomic merge by id. |
| Persist.AssetWriter.UpsertAsset | worker/asset_writer.go:84-133 | One asset is one atomic guarded upsert under the caller's parent; an asset without kind or value sends nothing. |
| Persist.AssetWriter.BuildStatement | worker/asset_writer.go:170-207 | The loop ends without a statement exactly when some asset lacks its kind or value; otherwise text and parameters are those of all rows in order. |
| Persist.ParametersSpelledOut | worker/asset_writer.go:180-207 | The six parameters of each asset, by position: scope, kind, value, its own parent or else the caller's, attributes, fingerprint. |
| Persist.AssetWriter.UpsertChunk | worker/asset_writer.go:169-220 | The text and the parameters that are sent, read back by a lexer and a binder, have the effect of the planned multi-row upsert. |
| Persist.AssetWriter.UpsertAssetsBatch | worker/asset_writer.go:152-167 | The loop over chunks has the effect of the planned chunks one after the other, up to the first that fails. |
| Persist.ChunksPartition | worker/asset_writer.go:156-165 | The chunks joined together are the batch in its order; each has 1 to 500 assets and all but the last exactly 500; each statement has at most 3000 parameters. |
| AssetTable.ReachableIsGuardSafe | worker/asset_writer.go:104-112 | In every table reached by any history of merges and of upserts over a collection of attribute sets without shared fingerprints, at any times, a row that carries the fingerprint of one of them would not be changed by merging it. |
| AssetTable.ExecKeepsGuardSafe | worker/asset_writer.go:270-275 | Each statement keeps that property. |
| AssetTable.GuardDropsNoChange | worker/asset_writer.go:210-217 | An upsert over such a collection that the guard skips on such a table would have changed neither attributes nor fingerprint. |
| AssetTable.GuardExactIff | worker/asset_writer.go:210-217 | The guard never drops a change, over all tables reached and all upserts with attributes of a given collection, if and only if no two attribute sets of it share a fingerprint. |
| AssetTable.SkipLosesExactly | worker/asset_writer.go:111-124 | For two upserts that share a fingerprint, skipping the second is harmless if and only if they carry the same attributes. |
| AssetTable.DigestsDisjoint | worker/asset_writer.go:274 | A digest computed by the database is never the fingerprint of client attributes. |
| AssetTable.ServerDigestExact | worker/asset_writer.go:274 | Two digests of the database are equal if and only if the attributes print the same. |
| AssetTable.MergeShowsIff | worker/asset_writer.go:270-275 | A second merge leaves the fingerprint alone if and only if it leaves the printed attributes alone. |
| AssetTable.AcceptedIffDistinct | worker/asset_writer.go:210-217 | A multi-row upsert is accepted on every table at every time if and only if it names no key twice. |
| AssetTable.AcceptedExactly | worker/asset_writer.go:210-217 | On a given table at a given time, a multi-row upsert is accepted if and only if no tuple that inserts or passes the guard is followed by another with its key. |
| AssetTable.UpsertAllWrites | worker/asset_writer.go:208-220 | What an accepted multi-row upsert makes of a row it names once: a new row with the tuple's fields, seen now; or the old id and parent with the attributes merged over, the new fingerprint and the time; or, when the fingerprint is the same and the row was seen within the last minute, the old row. |
| AssetTable.NamedRowsAreFresh | worker/asset_writer.go:212-217 | After an accepted upsert every row it names was seen at most a minute ago, guard or not. |
| AssetTable.ExecKeepsRows | worker/asset_writer.go:210-217 | Every statement keeps ids and parents, and a row that changes is seen now; a merge sees all rows with its id, merges its delta over their attributes and takes the digest of the printed result, and leaves all other rows alone. |
| AttrsEncoding.FingerprintKernel | worker/asset_writer.go:309-327 | Two attribute sets share a fingerprint if and only if they are equal after reading every map as its key-sorted list of pairs. |
| AttrsEncoding.FingerprintInjective | worker/asset_writer.go:350-372 | On attributes without a list that could be read as such a list of pairs, equal fingerprints mean equal attributes, and conversely. |
| AttrsEncoding.ReadCanon | worker/asset_writer.go:350-372 | Reading the canonical form of an unambiguous value gives the value back. |
| AttrsEncoding.CanonRead | worker/asset_writer.go:350-372 | Every canonical form has an unambiguous reading that encodes to it. |
| AttrsEncoding.AmbiguousCollides | worker/asset_writer.go:350-372 | The restriction is exact: every attribute set shares its fingerprint with an unambiguous one, which is itself if and only if it is unambiguous. |
| AttrsEncoding.EmptyListCollides | worker/asset_writer.go:358-367 | The smallest collision: under any key, an empty list and an empty map. |
| AttrsEncoding.ClientTextIsList | worker/asset_writer.go:318-323 | The hashed text of client attributes starts with an opening bracket. |
| AttrsEncoding.TextIsOneLine | worker/asset_writer.go:318-323 | The hashed text parses as the canonical form, with exactly a newline left over. |
| AttrsEncoding.PairsAscend | worker/asset_writer.go:355-367 | The pairs of a map stand in strictly ascending order of their keys' bytes. |
| AttrsEncoding.TextExample | worker/asset_writer.go:318-372 | The hashed text of two attributes given in the other order, character by character. |
| Json.ParsePrint | worker/dedup.go:103-119 | The parser returns exactly the document that was printed and the text behind it, for every string, number token, list and object. |
| Json.PrintInjective | worker/dedup.go:103-119 | Two documents with the same text are equal. |
| Json.EscapesInOrder | worker/dedup.go:103-119 | Strings are escaped character by character, in order. |
| Json.OthersAreThemselves | worker/dedup.go:103-119 | A character is written as itself if and only if it is not a control character, a quote, a backslash, one of the three that matter in HTML, or a line or paragraph separator. |
| Json.EscapesSpelledOut | worker/dedup.go:103-119 | How each of those is written: the short escapes, the HTML escapes, and four hex digits in lower case for the rest. |
| Utf8.DecodeEncode | worker/dedup.go:55 | Decoding the UTF-8 bytes of a string gives the string back. |
| Utf8.EncodingExamples | worker/dedup.go:55 | The bytes of one character of each length. |
| Utf8.LessTotal | worker/dedup.go:74 | The order of keys is total and no string is below itself. |
| Utf8.LessIsAscending | worker/dedup.go:74 | A key comes before another if and only if their encodings agree up to some position where it ends or has the smaller byte: ascending byte order. |
| Utf8.SortedUnique | worker/dedup.go:70-74 | A key set has only one sorted sequence, so sorting removes the randomness of map iteration. |
| FindingHash.PreimageExact | worker/dedup.go:29-63 | Two findings feed the hasher the same bytes if and only if kind, severity and data are equal; absent data differs from an empty map, and the title plays no part. |
| FindingHash.ParsePreimage | worker/dedup.go:29-46 | A parser that undoes the length framing, the UTF-8 and the JSON recovers kind, severity and data from those bytes. |
| FindingHash.CanonicalizeInjective | worker/dedup.go:67-92 | Canonicalization loses nothing: equal documents come from equal values. |
| FindingHash.FieldsAscend | worker/dedup.go:67-92 | The fields of the canonical object stand in strictly ascending order of their keys' bytes, one for each key. |
| FindingHash.DataExample | worker/dedup.go:51-92 | The bytes of data with two entries given in the other order, character by character. |
| FindingHash.FingerprintIsCoarser | worker/asset_writer.go:297-301 | Equal finding JSON implies equal attribute fingerprints, but not conversely, so the two canonical forms are not one comparator. |
| FindingHash.LongFieldsCollide | worker/dedup.go:41-46 | The bound on lengths is needed: a kind and a severity of 2^32 zero bytes each, the other one empty, give two findings with the same bytes. |
| FindingHash.MarshalOrdered | worker/dedup.go:103-119 | The buffer loop writes the text of the object with its fields in the given order. |
| FindingHash.WriteLP | worker/dedup.go:41-46 | The hasher receives the big-endian length cut to 32 bits, then the bytes. |
| FindingHash.HeaderIsBigEndian | worker/dedup.go:41-46 | The four header bytes denote the length, the first of them being the most significant. |
| FindingHash.PreimageExample | worker/dedup.go:29-63 | What the hasher is fed for a finding without data, byte by byte: kind, severity, then null. |
| FindingHash.DedupHash | worker/dedup.go:29-39 | The three framed fields, in order, are all the hasher is fed. |
| BatchStatement.StatementReadBack | worker/asset_writer.go:169-219 | Lexing the VALUES text of any batch and binding its placeholders to the parameters gives back every row's scope, kind, value, parent, attributes and fingerprint, in order. |
| BatchStatement.ValuesTextLexes | worker/asset_writer.go:199-239 | The text of n rows lexes into tokens whose placeholders are 1 to 6n, each once and increasing. |
| BatchStatement.LexShow | worker/asset_writer.go:225-239 | Any sequence of such tokens is recovered from its text. |
| BatchStatement.AppendValuesTuple | worker/asset_writer.go:225-239 | The loop appends the text of one row's tuple, with the cast behind its fifth placeholder only. |
| BatchStatement.RowText | worker/asset_writer.go:225-239 | The text of a row: six consecutive placeholders, the cast on the fifth, and the literal state. |
| BatchStatement.AppendInt | worker/asset_writer.go:241-253 | The twelve-byte array receives the decimal digits of every n below 10^12, and they are appended in order. |
| BatchStatement.NumberRoundTrip | worker/asset_writer.go:241-253 | The digits of n, read as a number, are n. |
| BatchStatement.DigitCount | worker/asset_writer.go:245 | A number has at most k digits if and only if it is below 10^k. |
| LinkedLru.Lru.Get | sdk/dns/cache.go:192-206 | On the linked list and the index, a get has the effect of the recency-sequence operation: a live entry moves to the front, an expired one is dropped, and list and index keep agreeing. |
| LinkedLru.Lru.Put | sdk/dns/cache.go:208-227 | The same for put, including the eviction loop: a held key is updated and moved, a new one goes in front and the far end is cut to the capacity. |
| LinkedLru.Lru.EvictTail | sdk/dns/cache.go:219-226 | The eviction loop cuts the sequence to the capacity and takes the evicted keys out of the index. |
| LinkedLru.Lru.constructor | sdk/dns/cache.go:184-190 | A new cache is empty, with list and index in agreement. |
| LinkedLru.LinkedList.Remove | sdk/dns/cache.go:200 | Unlinking an element leaves a ring that is consistent both ways and lacks just that element. |
| LinkedLru.LinkedList.PushFront | sdk/dns/cache.go:217 | Linking behind the sentinel leaves a consistent ring with the new element first. |
| LinkedLru.LinkedList.MoveToFront | sdk/dns/cache.go:204 | Moving an element leaves a consistent ring with that element first and the others in order. |
| LinkedLru.LinkedList.Back | sdk/dns/cache.go:220 | The sentinel's predecessor is the last element, if there is one. |
| LruModel.OperationsFit | sdk/dns/cache.go:192-227 | Get and put keep keys distinct and the size within the capacity. |
| LruModel.RunInvariant | sdk/dns/cache.go:58-72 | After any run of lookups both hold, and every expiry is some store time plus the ttl. |
| LruModel.HoldsMostRecent | sdk/dns/cache.go:192-227 | After any run of lookups whose fetches succeed, whatever has expired in between, the keys held are the first `cap` distinct keys of the history read backwards, in that order. |
| LruModel.HitLaw | sdk/dns/cache.go:192-227 | The exact hit law, with expiry: a lookup hits if and only if fewer than `cap` distinct keys were accessed since its key's last access and the key's last store plus the ttl has not passed. |
| LruModel.ExpiryIsLastStore | sdk/dns/cache.go:208-218 | Every held entry expires one ttl after the last lookup of its key that missed; hits do not prolong it. |
| LruModel.NeverAccessedMisses | sdk/dns/cache.go:193-197 | A key that was never accessed is never hit. |
| LruModel.HitIffFewKeysSince | sdk/dns/cache.go:192-227 | On runs in which no store is older than the ttl at any lookup, a lookup hits if and only if fewer than `cap` distinct keys were accessed since its key's last access. |
| LruModel.MoreCapacityHoldsMore | sdk/dns/cache.go:208-227 | On the same history a larger cache holds the keys of a smaller one and possibly others behind them, expired or not. |
| LruModel.MoreCapacityIff | sdk/dns/cache.go:192-227 | What is a hit at one capacity is a hit at a larger one if and only if the larger cache's last store of the key plus the ttl has not passed. |
| LruModel.MoreCapacityNeverHurts | sdk/dns/cache.go:208-227 | On runs in which no store is older than the ttl at any lookup, a hit at one capacity is a hit at every larger one. |
| LruModel.MoreCapacityCanHurt | sdk/dns/cache.go:199-202 | With expiry it need not be: a history of three lookups after which the fourth hits at capacity 1, where the key had to be fetched again, and misses at capacity 2. |
| LruModel.EvictsLeastRecent | sdk/dns/cache.go:219-226 | Over runs of lookups whose fetches succeed, with any expiries: when a lookup pushes a key out, every other key held was accessed after that key's last access. |
| LruModel.OpsKeepOrder | sdk/dns/cache.go:192-227 | Over arbitrary runs of gets and puts at any clock readings, the cache fits its capacity and its entries stand in strictly decreasing order of their last touches, a touch being a put or a hit. |
| LruModel.EvictsLeastTouched | sdk/dns/cache.go:219-226 | Every eviction removes the least recently touched key: when a put pushes a key out of such a cache, every other key held was touched later. |
| LruModel.KeysAreLostFairly | sdk/dns/cache.go:192-227 | A call takes a key out of such a cache only by a get that finds it expired, or by a put of a key that was not held, into a full cache, that evicts it as the least recently touched. |
| LruModel.EntriesAreLastPuts | sdk/dns/cache.go:208-218 | After any run of gets and puts, what is held for a key is the entry last put for it. |
| CachingResolver.HitsAreHonest | sdk/dns/cache.go:58-112 | In every interleaving of lookups, fetches and stores by any number of callers, a hit returns what the backend earlier gave for that host and record type and some caller then stored, at most one ttl before; if its validity time was still ahead at the check, no later than that time plus the delay between check and store. |
| CachingResolver.ServedExactlyUntil | sdk/dns/cache.go:85-93 | After any history, right after a store at time s a lookup of that host by a free caller is a hit if and only if it comes no later than s plus the ttl; for an all-records answer with a validity time still ahead when it was checked, no later than s plus the smaller of the ttl and what was left of it. |
| CachingResolver.HitsAreLatest | sdk/dns/cache.go:58-112 | In every interleaving a hit returns the answer last stored for that host and record type. |
| CachingResolver.HistoryJustifies | sdk/dns/cache.go:58-96 | At every point of every interleaving, each cached entry and each pending answer goes back to a backend reply, so a failed answer is never cached. |
| CachingResolver.CacheIsRunOfOps | sdk/dns/cache.go:58-112 | In every interleaving the cache of each record type is what its own gets and puts, in their order, make of an empty one. |
| CachingResolver.CachesKeepOrder | sdk/dns/cache.go:58-112 | In every interleaving, with failed fetches and expiries, each cache fits and keeps its entries in the order of their last touches. |
| CachingResolver.StepsLoseFairly | sdk/dns/cache.go:58-112 | In every interleaving a step takes a key out of a cache only by a lookup that finds it expired, or by a store of a key that was not held, into a full cache, that evicts it as the least recently touched. |
| CachingResolver.ValidityRespectedIff | sdk/dns/cache.go:85-90 | The expiry of a stored answer respects its validity time, up to that delay, if and only if the time was still ahead at the check. |
| CachingResolver.StaleAnswerIsServed | sdk/dns/cache.go:85-90 | A concrete history in which an answer that was stale on arrival is served for the whole ttl. |
| CachingResolver.CallIsLookup | sdk/dns/cache.go:58-72 | One successful call run alone is the sequential lookup of the run theorems. |
| CachingResolver.StepsAreCall | sdk/dns/cache.go:58-96 | A caller's three steps without others in between have the effect of one call on the cache of that record type, failed fetches included, and none on the other caches. |
| CachingResolver.CachingResolver.constructor | sdk/dns/cache.go:38-56 | Non-positive ttl and capacity are replaced by five minutes and 4096. |
| CachingResolver.CachingResolver.Resolve | sdk/dns/cache.go:58-72 | One call on the linked cache: what it returns and what it leaves, for hits, misses, failures and evictions. |
| CachingResolver.CachingResolver.CheckValidity | sdk/dns/cache.go:85-90 | The ttl an answer is stored with; how long that makes it live is ServedExactlyUntil. |
| CachingResolver.CachingResolver.ResolveAll | sdk/dns/cache.go:74-96 | The same for the all-records call, whose answers may shorten the ttl. |
| BreakerModel.CountTellsPhase | sdk/proxyclient/breaker.go:77-114 | Over every run the failure count stays below max(2, threshold) while closed and equals it while open or half-open. |
| BreakerModel.ClosedCountIsCaused | sdk/proxyclient/breaker.go:91-108 | A closed breaker with a positive count has exactly that many failures, with no success between them, within the window of the failure that anchors it. |
| BreakerModel.OpensOnlyForCause | sdk/proxyclient/breaker.go:104-113 | Whenever a breaker goes from closed to open, the call is a failure that ends a stretch of exactly max(2, threshold) failures without a success, all within the window of the first. |
| BreakerModel.StaysOnTrack | sdk/proxyclient/breaker.go:104-113 | How far a closed breaker's count can lag behind the failures of a stretch: re-anchoring forgets at most T - 2 of them. |
| BreakerModel.ReactsWithinBound | sdk/proxyclient/breaker.go:91-114 | From any closed state, 2T - 2 failures within one window leave the breaker open right after the last; from a zero count, T do. |
| BreakerModel.OpensIff | sdk/proxyclient/breaker.go:104-113 | Failures that come after a zero count and within one window of each other leave the breaker open right after the last if and only if there are two of them and as many as the threshold, whatever attempts lie between them. |
| BreakerModel.BoundIsTight | sdk/proxyclient/breaker.go:104-108 | For every setting with a window of at least a nanosecond there is a run of 2T - 3 such failures that leaves it closed. |
| BreakerModel.GrantsAreSpaced | sdk/proxyclient/breaker.go:58-75 | In a success-free stretch that starts open, each grant and each reopening comes a full cooldown after the grant before. |
| BreakerModel.ProbeRateBound | sdk/proxyclient/breaker.go:58-75 | The k-th granted attempt of such a stretch comes no earlier than openedAt + k * cooldown. |
| BreakerModel.GrantsPerCooldown | sdk/proxyclient/breaker.go:91-103 | The grants of such a stretch never exceed the elapsed time over the cooldown, rounded down. |
| BreakerModel.OpenWaits | sdk/proxyclient/breaker.go:62-69 | Failures and refused attempts leave an open breaker exactly as it is. |
| BreakerModel.ProbeIsDueIff | sdk/proxyclient/breaker.go:58-75 | The converse of the spacing: after any stretch of failures and refused attempts that starts open, an attempt is granted if and only if the cooldown since openedAt is over. |
| BreakerModel.FirstProbeIsDueIff | sdk/proxyclient/breaker.go:104-113 | In any run, the cooldown that counts is the one since the very failure that opened the breaker. |
| BreakerModel.ReprobeIsDueIff | sdk/proxyclient/breaker.go:96-100 | After a failed probe it is the one since that probe's failure. |
| BreakerModel.ProbeThenSuccess | sdk/proxyclient/breaker.go:58-87 | A granted probe is the only one until it is reported, and its success closes the breaker with a zero count. |
| BreakerModel.UnreportedProbeBlocks | sdk/proxyclient/client.go:99-105 | A granted probe that ends without a report, as when there is no assignment, blocks all further attempts until some outcome is reported. |
| BreakerModel.EarlyGrantIff | sdk/proxyclient/breaker.go:58-87 | In any run that starts open, successes included, an attempt within the first cooldown is granted if and only if the breaker is closed at that point, and then some success came before. |
| BreakerModel.FewFailuresKeepClosed | sdk/proxyclient/breaker.go:104-113 | From a zero count, a run with fewer than max(2, threshold) failures, whatever else it holds, leaves the breaker closed. |
| BreakerModel.LateSuccessCutsCooldown | sdk/proxyclient/breaker.go:79-87 | After a success at any point of any run, as long as fewer failures follow than trip the breaker, every attempt is granted, whatever the cooldown. |
| ProxyClient.Breaker.constructor | sdk/proxyclient/breaker.go:45-52 | A new breaker is closed with a zero count. |
| ProxyClient.Breaker.Allow | sdk/proxyclient/breaker.go:58-75 | The locked call grants and changes state as the state machine does. |
| ProxyClient.Breaker.Success | sdk/proxyclient/breaker.go:79-87 | The same for a reported success. |
| ProxyClient.Breaker.Failure | sdk/proxyclient/breaker.go:91-114 | The same for a reported failure. |
| ProxyClient.Client.constructor | sdk/proxyclient/client.go:41-49 | A client's breaker starts closed with the settings given, where non-positive ones are replaced by 3 errors, 30 seconds and 60 seconds. |
| ProxyClient.Client.PickRoute | sdk/proxyclient/client.go:102-128 | What follows a granted attempt, as its own step so that other callers may come between: the proxy is used if and only if there is an assignment with a non-empty address that parses, an address that does not is one failure, and a missing one reports nothing. |
| ProxyClient.SchemeSpelledOut | sdk/proxyclient/client.go:246-253 | A bare address is parsed with http:// in front; one that starts with either scheme is parsed as it is. |
| ProxyClient.Client.HTTPClient | sdk/proxyclient/client.go:95-129 | One caller's run: a client is routed through the proxy if and only if it asked for it, the attempt was granted and the assignment's address is there and parses; and which calls the breaker has then had. |
| ProxyClient.Client.RefreshOnce | sdk/proxyclient/client.go:188-200 | A failed refresh is one failure and keeps the assignment; a good one stores it and is one success. |
| ProxyClient.Client.RoundTrip | sdk/proxyclient/client.go:265-282 | Each round trip reports one failure or one success, and a failure just for transport errors and for server errors that the proxy brands as its own. |
| ConfigTree.MergeAtPath | worker/runtime.go:316-334 | At every path the merge shows what one side shows there, or a map: which side follows from where the walk first meets the override. |
| ConfigTree.MergeLook | worker/runtime.go:316-334 | What the merge shows at a path, said of the two configs alone: what the override shows, if anything; nothing, where a non-map of the override stands in the way; otherwise what the first config shows. |
| ConfigTree.SupplierLeftIff | worker/runtime.go:316-334 | The first config's own object is at a path if and only if the override lacks the key where the two stop being maps together. |
| ConfigTree.LooksDetermine | worker/runtime.go:316-334 | Two configs that show the same at every path are equal, so the path law determines the merge. |
| ConfigTree.MergeTwice | worker/runtime.go:316-334 | Merging the same override twice equals merging it once. |
| ConfigTree.MergeAssociativeIff | worker/runtime.go:316-334 | Merging three configs is associative if and only if nowhere a non-map in the middle separates maps of the outer two, unless the last one overrides all of the first there. |
| ConfigTree.MergeAssociative | worker/runtime.go:316-334 | In particular it is associative when no path is a map in one config and something else in the next. |
| ConfigMerge.MergeConfigInto | worker/runtime.go:319-334 | On heap maps: the result holds the merge; every map where both sides have one is new, every other nested map is the very map of its side; nothing that existed before is written to. |
| SecretPaths.SplitPath | sdk/secretbox/fields.go:51-69 | The loop yields the trimmed non-empty parts in order. |
| SecretPaths.SegmentsAreClean | sdk/secretbox/fields.go:51-69 | Whatever was typed, every segment is non-empty, without dots and without space at its ends. |
| SecretPaths.SegmentsRoundTrip | sdk/secretbox/fields.go:51-69 | Clean segments written with dots are read back as they were. |
| SecretPaths.SegmentsOfParts | sdk/secretbox/fields.go:51-69 | Whatever stands between the dots, the segments are the parts that are not blank, trimmed and in their order. |
| SecretPaths.BlankDropped | sdk/secretbox/fields.go:62-65 | A blank part anywhere makes no difference. |
| SecretPaths.KeptConcat | sdk/secretbox/fields.go:60-67 | Parts are kept or dropped one by one, whatever is around them, and those kept keep their order. |
| SecretPaths.StrayDots | sdk/secretbox/fields.go:51-69 | Leading, doubled and trailing dots around two clean segments are tolerated. |
| ConfigHeap.WalkValue | sdk/secretbox/fields.go:71-88 | The walk ends at what the config shows at the path, and at the map object there if it is one. |
| ConfigHeap.SetValue | sdk/secretbox/fields.go:90-111 | One entry of one existing map is replaced; no key and no map is created, and a path that leads nowhere changes nothing. |
| ConfigHeap.WriteEffect | sdk/secretbox/fields.go:110 | What one write into a map means for any config that may share it: its path is set if the config holds that map there, and otherwise the config is unchanged. |
| ConfigHeap.SetLeaf | sdk/secretbox/fields.go:43 | The same write seen by two configs at once: the one it is made to and the one that shares maps with it. |
| ConfigHeap.JudgeAt | sdk/secretbox/fields.go:29-42 | Which leaves are skipped, which fail and which are decrypted. |
| ConfigHeap.JudgeField | sdk/secretbox/fields.go:25-42 | The same for a declared path as it was typed. |
| ConfigHeap.DecryptField | sdk/secretbox/fields.go:24-46 | One declared path: only a decrypted leaf is written, a failing one keeps its ciphertext. |
| ConfigHeap.DecryptFields | sdk/secretbox/fields.go:20-49 | The config ends as all declared paths decrypted in order, the config that shares maps with it as those of them that are shared, and count and list of failures are told in terms of the config as it was given. |
| ConfigTree.EncryptedByBytes | sdk/secretbox/secretbox.go:125-129 | The envelope test of the model agrees with the test on bytes for every string. |
| ConfigTree.DecryptAllLook | sdk/secretbox/fields.go:20-49 | Exact effect at every path: a string is opened once for every time its path is declared, a failing one stays, and nothing else changes. |
| ConfigTree.VerdictSpelledOut | sdk/secretbox/fields.go:29-42 | A leaf is skipped if and only if it is not an envelope, fails if and only if it is one that the key does not open, and is otherwise decrypted to what the key gives. |
| ConfigTree.FailuresAre | sdk/secretbox/fields.go:20-49 | A field is reported as failed if and only if some declaration of it met an envelope that the key does not open, earlier declarations of the same path taken into account. |
| ConfigTree.SuccessesAre | sdk/secretbox/fields.go:20-49 | The count reported is the number of declarations that met an envelope which the key opens. |
| ConfigTree.DeclaredOnce | sdk/secretbox/fields.go:20-49 | A string declared once becomes its plaintext if it is an envelope that the key opens and stays otherwise; one that is not declared stays. |
| ConfigTree.DecryptOrderIrrelevant | sdk/secretbox/fields.go:24-47 | The order in which paths are declared plays no part, with or without envelopes among the plaintexts. |
| ConfigReload.Runtime.FetchMergedConfig | worker/runtime.go:297-314 | The result holds the manifest's config with the stored override merged over it, or the manifest's alone when there is none; it shares with the manifest exactly the nested maps that the override leaves alone, and its top-level map is always new. |
| ConfigReload.Decode | worker/runtime.go:309-312 | Decoding a stored override makes only new maps, one for each place. |
| ConfigReload.Runtime.DecryptSecrets | worker/runtime.go:268-295 | Which key is used and kept, and that without one, or without declared secrets, nothing changes; otherwise merged config and manifest change as decryption through the sharing demands. |
| ConfigReload.Runtime.CollectLists | worker/runtime.go:213-226 | One new map per list that could be fetched; of two rows for one name the later stays. |
| ConfigReload.NothingFetched | worker/runtime.go:209-230 | When no list could be fetched the config is left alone, whatever it has under lists. |
| ConfigReload.FetchedList | worker/runtime.go:213-230 | A list that could be fetched shows content, hash and status of the last row fetched for its name, and no other field. |
| ConfigReload.UnfetchedList | worker/runtime.go:213-230 | When some list could be fetched, a name without a fetched row is absent. |
| ConfigReload.OtherPathsStay | worker/runtime.go:227-230 | Every path that does not go into the lists shows what it showed. |
| ConfigReload.Runtime.InjectExternalLists | worker/runtime.go:209-230 | Only the top-level map is written, and the config then is the one whose paths NothingFetched, FetchedList, UnfetchedList and OtherPathsStay describe. |
| ConfigReload.Runtime.ApplyConfig | worker/runtime.go:187-198 | What one reload hands over and what it leaves of the manifest, as functions of manifest, override, key and lists. |
| ConfigReload.Runtime.ConfigLoop | worker/runtime.go:154-163 | Over a boot and any number of edits of the override, with the lists as they are at each, every reload hands over what it would have handed over at boot, although reloads write to the manifest; provided every declared string in a nested map of the manifest is left alone by opening it as often again. |
| ConfigTree.HistoryIrrelevant | worker/runtime.go:187-198 | The same on values, under the same provision: after any run of reloads with any overrides, a reload is as good as the first. |
| ConfigTree.HistoryIrrelevantIff | worker/runtime.go:187-198 | And that provision is exact: no history of overrides ever shows in what any later override leads to, if and only if every declared string in a nested map of the manifest is left alone by opening it as often again. |
| ConfigTree.PlainSettles | worker/runtime.go:268-295 | The provision is met when no declared string of the manifest has a plaintext that looks like an envelope. |
| ConfigTree.ReloadStableIff | worker/runtime.go:187-198 | For two reloads, the second hands over what it would have without the first if and only if every declared string that was shared in the first and is the manifest's in the second is left alone by opening it as often again. |
| ConfigTree.SecondReloadLook | worker/runtime.go:268-334 | What a reload shows at a path after another one, in terms of the manifest before both. |
| ConfigTree.EnvelopeInEnvelope | worker/runtime.go:187-198 | It is not always met: with a plaintext that is an envelope itself, the second of two equal reloads hands over something else. |

## Left out

- BreakerModel.BoundIsTight: is stated for windows of at least one nanosecond, the smallest step of the clock.
- FindingHash.PreimageExact: is stated for fields shorter than 2^32 bytes; LongFieldsCollide shows what happens beyond.
- Persist.JobRetryConverges: does not speak of `last_seen`, row ids or the `state` column, which do depend on the clock and on which attempt inserted the row.
- ProxyClient.Client.HTTPClient: is one caller's run, without others between its two calls on the breaker; Breaker.Allow and PickRoute are the steps that others may come between, and the results of BreakerModel hold for every interleaving of them.
- ConfigHeap.DecryptFields: the nil config is not modelled, since a reload never passes one.
- ConfigReload.Runtime.ConfigLoop: a tool that writes into the config it is handed is not modelled, and the key in the environment stays the same.
- PostgreSQL itself: normalisation of jsonb numbers, rejection of NUL characters, NULL fingerprints, triggers and notifications, and writers other than the worker at hand.
- River, retries' timing and job uniqueness: only which outcome leads to another attempt.
- AES-GCM, base64 and SHA-256.
- HTTP, TLS, the resolvers behind the cache, source caches, tracing and metrics.
- The other four lookup methods of the cache: they have the shape of Resolve, and the step system covers their record types.
- Aliasing of cached records: a caller that changes a record it was given changes the cached one.
- Plaintexts that are not valid UTF-8.
- Values outside JSON trees: typed Go maps and slices, invalid UTF-8, NaN, and the marshal-error sentinel.
- Reuse of pooled hashers and buffers: each call starts with fresh ones.
- FetchAsset and SetParentChain, API keys and secret feedback: single statements without effect on the properties above.
- Manifest validation, heartbeats, LISTEN and shutdown.
