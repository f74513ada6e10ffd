# DialCache, verified

DialCache is a layered cache: a request memo, a process-wide LRU store and Redis, with distributed
invalidation of tracked entities. It exists in Go, Python and Rust, and the ports share one wire
format. This project models its branch-heavy core in Dafny 4.11 and proves what the layers rely on.

- `Watermark`, `Fence`: the Redis invalidation script and the protocol around it. The main theorem is
  that no tracked read ever serves a frame stamped at or below an invalidation's target, over every run,
  also after the watermark key itself has expired.
- `Engine`: one call of the shared chain (local store, Redis, source, refill, recovery), exactly.
- `SingleFlight`, `Settled`, `Shadow`, `Deadline`: the concurrency protocols, as labelled step systems
  whose steps are the critical sections. Theorems are about every reachable state. The classes beside
  them are the same critical sections on mutable fields, proved against the functions the steps use.
- `Frames`, `Decimals`, `Keys`, `Envelope`, `Policy`: formats and merges, with round trips, injectivity
  and agreement between the ports.
- `Utf8`, `Clamp`, `Preview`, `Json`, `JsonDiff`, `JsonWalk`, `JsonEqual`: bounded log text and the
  structural difference of two JSON values.
- `Lru`: the local store against a put history.

Integers are unbounded; the limits the code imposes (2^53 - 1 for stamps, TTL and buffer bounds) are
written out. Clocks, Redis replies, codec and source results, timers and scheduling are inputs: every
value and every order is allowed unless a lemma says otherwise. Wall and server times are milliseconds,
elapsed times in `Deadline` and `Shadow` nanoseconds.

What the proofs turned up:

- The invalidation protocol tolerates more than its one-minute margin. A fenced write may reach the
  server later than the target by max(60 s, 1 h - buffer) less the invalidator's clock lead, and for
  anything larger there is a run that serves a stale frame (`Fence.SlackIsExact`).
- The writer's two fence checks do real work: a refill whose read ran after an invalidation, and before
  its guard ends, needs no bound on its arrival (`Engine.RefillIsVouched`,
  `Fence.FenceSafetyWithChecks`).
- A watermark's value does not depend on the order of invalidations, but its expiry does, under the
  exact condition of `Watermark.ExpiryDependsOnOrder`. A retried invalidation can push the expiry out
  (`Watermark.RetryOnlyExtends`).
- A tracked refill is always stamped above the watermark its read met if and only if the frame found was
  not dated ahead of the client's clock, or that clock had already passed the watermark
  (`Engine.RefillAboveWatermark`): a future-dated frame drops the fence (`Engine.FutureFrameDropsFence`).
  For every watermark there is such a read whose refill is stamped at the watermark itself, and that
  frame is a fenced miss under it (`Engine.SkewedReadRefillsFenced`).
- Successful calls of one key in one live request scope agree when every caller of that key in that
  scope coalesces (`SingleFlight.RequestAgrees`); one uncoalesced caller is enough to break that, for any
  scope, key and values (`SingleFlight.UncoalescedCallersDisagree`).
- The ports do not merge every runtime policy alike. Python also reads `log_mismatches` and
  `mismatch_logging`, and prefers them; Rust and Go ignore those names. `Policy.PortsAgreeExactly` gives
  the exact condition for agreement, `Policy.SnakeCaseDiverges` and `Policy.SnakeCaseGroupFails` inputs
  that violate it.

## Model

| member | source | states |
|---|---|---|
| Watermark.WatermarkKey.Invalidate | go/redis_adapter.go:170-206 | The script on one key: rejected arguments leave it untouched; accepted ones replace it by the advanced key, a persistent key staying persistent |
| Watermark.AcceptedArguments | go/redis_adapter.go:170-183 | As numbers: accepted exactly when the buffer is at most a year and stamp plus buffer is a safe integer |
| Watermark.AdvanceValue | go/redis_adapter.go:184-196 | After an accepted call the key holds the larger of its readable value and the target, as decimal text that parses back |
| Watermark.AdvanceNeverRetreats | go/redis_adapter.go:193-205 | Neither the value nor the expiry instant of a live key ever decreases |
| Watermark.RetryOnlyExtends | go/redis_adapter.go:154-162 | A retry that reaches the server later leaves the value alone and never shortens the expiry; the key is untouched if and only if it is persistent or already outlives the retention counted from the retry |
| Watermark.RetentionGuarantee | go/redis_adapter.go:184-205 | Over any sequence of calls from any key, after call i a marker at or above its target stays visible for the retention i asked for, whatever follows |
| Watermark.LiveValueIsMaxTarget | go/redis_adapter.go:184-205 | From any key, while the marker stays live its value is the maximum of the value the first call met and all targets, duplicates included |
| Watermark.OrderDoesNotMatter | go/redis_adapter.go:184-205 | From any key, two live sequences that meet the same value and have the same set of targets end with the same value |
| Watermark.ExpiryDependsOnOrder | go/redis_adapter.go:193-205 | Two invalidations at one server time on any key: the value never depends on their order, and the exact condition on targets, stamps and the live key under which the expiry does |
| Watermark.ExpiryOrderWitness | go/redis_adapter.go:193-205 | One such pair on an absent key, with both expiry instants |
| Fence.FenceSafety | go/redis_adapter.go:184-205 | Over every run of ticks, invalidations, writes and removals: once an invalidation ran, no read hits a frame stamped at or below its target, if the fenced writes that follow it reach the server within the slack of the target; writes before it need no bound |
| Fence.DelaysAreEnough | go/engine.go:516-533 | Bounding each later write's stamp-to-arrival delay plus the invalidator's lead implies that condition |
| Fence.FenceSafetyWithChecks | go/engine.go:470-522 | Fence safety when only writes that no read vouches for are bounded: those whose read ran before the invalidation or after the guard's end, or that are not stamped above the marker their read met |
| Fence.RunKeepsGuard | go/redis_adapter.go:184-205 | After an invalidation, over every continuation, a live marker at or above its target stands guard until its retention ends |
| Fence.RunKeepsFence | go/protocol.go:290-320 | The invariant behind fence safety: that guard, and every fenced frame gone by its end |
| Fence.SlackIsExact | rust/src/limits.rs:10-36 | For every delay plus lead above max(60 s, 1 h - buffer) there is a legal run that serves a stale frame after the invalidation |
| Engine.Chain.Shared | go/engine.go:225-306 | Local store, Redis, source and recovery each answer if and only if their condition holds; the local store gets only the returned value and, tracked with remote serving on, only one read from Redis; Redis gets only a source value above the reported fence; recovery publishes nothing; kept over any number of calls |
| Engine.Chain.ThroughRemote | go/engine.go:276-305 | The same for the part of the chain from the Redis read onwards |
| Engine.Chain.ReadServing | go/engine.go:387-442 | Each classification of a read if and only if its condition: served means 0 <= age < TTL and decoded, retained means TTL <= age < ceiling, a miss carries the fence the read reported |
| Engine.Chain.PutRemote | go/engine.go:465-549 | One frame goes out exactly when the refill is allowed, and it is the refill whose lifetime and conditions the next two rows state |
| Engine.RefillExactly | go/engine.go:465-522 | A refill is allowed if and only if the value encodes, the stamp is a safe integer and, tracked with a reported fence, both clock readings lie above it |
| Engine.RefillKeptWhileNeeded | go/engine.go:523-533 | Redis keeps a refill exactly as long as recovery, or else freshness, can need it, at most an hour when tracked: there after every shorter wait, gone after every other |
| Engine.StoresExactly | go/engine.go:225-306 | The local store receives a value exactly on a local miss: any from Redis, and one from the source unless the key is tracked and remote serving is on |
| Engine.Chain.Recover | go/engine.go:577-601 | A value is recovered if and only if the frame decodes and is below the recovery ceiling both before and after decoding |
| Engine.StoredFormReadsBack | go/engine.go:444-539 | Whatever is written for a value, compressed or raw, text or binary, decodes from the stored bytes as the codec's own payload |
| Engine.RefillIsServed | go/engine.go:398-539 | A refill is served back as the same value by any later read that finds it fresh and not fenced |
| Engine.RefillAboveWatermark | go/engine.go:398-522 | Every refill a tracked read can lead to, on a clock that does not step back, is stamped above the watermark Redis held if and only if the frame found was not future-dated or the clock had passed the watermark |
| Engine.ServedAboveInvalidation | go/engine.go:276-305 | On top of any server run: after an invalidation whose later writes arrive in time, no tracked call returns or recovers a Redis frame stamped at or below its target |
| Engine.RefillIsVouched | go/engine.go:465-533 | A tracked call that reads after an invalidation and before its guard ends, with a frame not future-dated or a clock past the marker, sends only legal refills that its read vouches for, stamped above the invalidation's target |
| Engine.FutureFrameDropsFence | go/engine.go:419-423 | After a future-dated frame the refill is issued whatever the watermark |
| Engine.SkewedReadRefillsFenced | go/engine.go:419-423 | For every watermark, a read one millisecond behind its frame that refills at the watermark itself, and the written frame is a fenced miss |
| SingleFlight.FlightTable.Enter | go/engine.go:172-192 | The table decides as EnterExactly says; joining counts one follower on that flight only, leading registers a fresh unsettled flight without followers, nothing else changes |
| SingleFlight.FlightTable.Lookup | go/engine.go:138-149 | The memo answers only while the scope is live |
| SingleFlight.FlightTable.Publish | go/engine.go:156-163 | A value is remembered only in a live request scope |
| SingleFlight.FlightTable.Finish | go/engine.go:193-202 | The flight settles with the result and leaves the table only if it is the one registered |
| SingleFlight.FlightTable.Close | go/cache.go:107-118 | The scope is dead and its memo and flights are empty |
| SingleFlight.StepKeepsInv | rust/src/execution.rs:82-134 | Every step of any caller keeps the registry, ownership, result and scope invariants |
| SingleFlight.FinishIsTwoSteps | rust/src/execution.rs:116-122 | Cleanup and settlement under one lock equal unregistering and then settling |
| SingleFlight.AtMostOneLeader | go/engine.go:172-202 | In every reachable state at most one call per live table and key executes as leader |
| SingleFlight.EnterExactly | go/engine.go:178-192 | In every reachable state a coalescing caller of a live table follows whoever executes its key and leads when nobody does; without coalescing or after close it works alone |
| SingleFlight.LoadedResultIsReturned | go/engine.go:156-202 | Whatever a load returns, value or error, is what the caller and its flight settle with; a value is remembered in a live scope, an error nowhere |
| SingleFlight.LookupAndDrop | rust/src/execution.rs:125-134 | A remembered value ends the call without a load; a dropped call settles with its error |
| SingleFlight.OthersKeepCaller | rust/src/execution.rs:469-533 | No other caller's step and no scope change moves a caller |
| SingleFlight.JoinsOnlyUnsettled | rust/src/execution.rs:469-533 | A joiner joins an unsettled flight of its own table and key whose leader is at work |
| SingleFlight.SharedResult | go/engine.go:183-202 | Leader and followers of one flight return the same result |
| SingleFlight.CleanupOnlyOwn | rust/src/execution.rs:92-113 | Cleanup removes the caller's own flight and never another leader's |
| SingleFlight.FollowersNeverStuck | rust/src/execution.rs:125-134 | A follower's flight is settled or has a leader that can take a step, dropped leaders included |
| SingleFlight.ClosedStaysEmpty | go/cache.go:107-118 | From the step that closes a scope on, its memo and flight table are empty in every continuation |
| SingleFlight.RequestAgrees | go/engine.go:137-170 | All successful calls of a key in a live scope return one value, the remembered one, if every caller of that key in that scope coalesces; other keys and scopes are unconstrained |
| SingleFlight.UncoalescedCallersDisagree | go/engine.go:166-169 | For every request scope, key and pair of values there is a run in which one uncoalesced caller makes two successful calls of the live scope return those two values |
| Settled.Cell.Settle | rust/src/flight.rs:47-61 | The first settle stores the value and takes all wakers; later ones change nothing and say so |
| Settled.Cell.Poll | rust/src/flight.rs:80-103 | Ready exactly when settled; otherwise the waker replaces its own slot or takes one nobody holds |
| Settled.Cell.DropWait | rust/src/flight.rs:105-120 | Before settlement the waiter's own slot is released; afterwards nothing is touched |
| Settled.StepKeepsOwnership | rust/src/flight.rs:47-120 | Every step keeps each pending waiter alone on one slot that holds its latest waker |
| Settled.StepKeepsNoOrphans | rust/src/flight.rs:47-120 | Every stored waker belongs to a pending waiter |
| Settled.SlotIndexNeverStale | rust/src/flight.rs:86-92 | In no reachable state does a poll or drop index a slot that is not there |
| Settled.SettleTakesLatestWakers | rust/src/flight.rs:47-61 | Settling takes exactly one waker per pending waiter, its latest, and every taken waker has one owner |
| Settled.NoLostWakeup | rust/src/flight.rs:47-120 | In every settled reachable state each pending waiter's latest waker is woken or still to be woken, and all are once the settling thread is done |
| Settled.PollTakesEffect | rust/src/flight.rs:80-103 | In every reachable state a poll leaves the wait pending with that waker alone in its slot, or returns the settled value |
| Settled.SettlesOnce | rust/src/flight.rs:47-61 | The value never changes once set, and every completed wait returned it |
| Shadow.ShadowSlots.Admit | go/shadow.go:46-55 | Admitted exactly when the key holds no slot and capacity is left |
| Shadow.ShadowSlots.Release | go/shadow.go:175-189 | Only the job's own slot is removed |
| Shadow.AdmittedIffRoom | go/shadow.go:36-59 | An attempt runs if and only if no unreleased job has its key and fewer than capacity are unreleased; otherwise it is dropped |
| Shadow.SlotsBoundJobs | go/shadow.go:46-55 | Capacity is never exceeded, a key has at most one unreleased job, and a job keeps its own slot until release |
| Shadow.ReleasedAfterEverything | go/shadow.go:174-189 | A slot is released only after exactly one verdict and after every raw read the job started has settled |
| Shadow.ReleaseFreesKey | go/shadow.go:175-189 | Release always finds its own slot, and frees its key |
| Shadow.JobsNeverStuck | go/shadow.go:125-299 | A job holding a slot can always take its next step, or is finished and reported with a raw read still out |
| Shadow.VerdictsAreSound | go/shadow.go:190-299 | A mismatch rests on a false comparison and a confirming read with equal payload bytes, a match on a true one, superseded on different bytes or a miss, filled on one write after a missed read, each failure on the answer it names, all before the deadline; a timeout on a passed deadline, a panic or a dark source out of time |
| Shadow.TimeoutsHaveReasons | go/shadow.go:190-291 | A stage ends in a timeout only when late, stopped, panicked, out of source time or without a frame |
| Shadow.StagesUntilFilled | go/shadow.go:191-257 | Before the deadline: a dark job reads, asks the source and fills only what was missing; any other asks the source |
| Shadow.StagesOfComparison | go/shadow.go:258-291 | Before the deadline: an equal comparison is a match, a different one is confirmed by a second read |
| Shadow.BudgetStarts | go/shadow.go:131-137 | A dark job's budget runs from its serving call, any other's from its own start |
| Shadow.NoWorkStartsLate | go/shadow.go:138-143 | Every read and write of a job starts before its deadline |
| Shadow.AbandonedStartsNothing | go/shadow.go:138-143 | An abandoned job starts no further read or fill and its next stage is its last |
| Shadow.AdvanceFollows | go/shadow.go:190-291 | One stage of validation starts at most one piece of work, never when late, and keeps the evidence behind its verdict |
| Deadline.AwaitDeadline | go/deadline.go:56-86 | For any wakeups the result is accepted if and only if the deciding wakeup is the completion and is observed strictly before the deadline |
| Deadline.TimerDelay | go/deadline.go:38-52 | The fewest whole milliseconds that do not shorten the remaining budget |
| Deadline.HonestTimersWaitOnce | go/deadline.go:38-52 | With timers that fire no earlier than asked the loop never goes round again |
| Frames.DecodersAgree | python/dialcache/protocol.py:105-159 | The Go and Python decoders classify every pair of bytes and marker alike |
| Frames.TrackedHitIsUnfenced | go/protocol.go:290-320 | Any bytes: a tracked read hits exactly when the frame is supported and its stamp is positive and above the marker; a malformed marker is never a hit |
| Frames.TrackedClassification | go/protocol.go:290-320 | Any bytes and marker: the exact classification, with the big-endian stamp and the fence every miss reports |
| Frames.UntrackedClassification | python/dialcache/protocol.py:136-143 | Any bytes: the exact classification without marker and fence |
| Frames.FrameRoundTrip | go/protocol.go:247-320 | A written frame decodes to itself with text repaired once; tracked, it is a hit exactly when not fenced, and otherwise the miss that names the reason |
| Frames.EncodedLayout | python/dialcache/protocol.py:95-102 | The bytes of a frame: version, eight stamp bytes that read back, encoding tag, payload |
| Decimals.ParseWatermark | go/protocol.go:264-286 | Digit scan, zero trimming and 64-bit parse accept exactly the decimal texts up to 2^53 - 1, with their value |
| Decimals.BoundsAgree | python/dialcache/protocol.py:115-122 | Length plus lexicographic comparison accepts exactly the same texts |
| Decimals.LexIsNumeric | python/dialcache/protocol.py:115-122 | On digit strings of one length lexicographic order is numeric order |
| Decimals.TrimKeepsValue | python/dialcache/protocol.py:118-122 | Dropping leading zeros keeps the value |
| Keys.Validate | go/protocol.go:118-139 | Accepted exactly when no brace stands in the namespace, nor in a tracked type or id, and all text is well-formed |
| Keys.EscapeText | go/protocol.go:103-116 | The escape loop computes percent-escaping |
| Keys.BuildKeys | go/protocol.go:118-154 | The three keys of an accepted identity; nothing for a rejected one |
| Keys.UnescapeEscape | rust/src/identity.rs:281-297 | Percent-escaping has a left inverse (section 2.1 of RFC 3986) |
| Keys.KeyReadsBack | rust/src/identity.rs:245-279 | Every logical key, read by its separators and percent-decoded, gives back namespace, type, id, tracked flag, ordered arguments and use case |
| Keys.KeySuffixes | go/protocol.go:140-154 | The fixed texts of value and watermark keys |
| Keys.EscapeSpelling | go/protocol.go:103-116 | Which bytes are kept, and the upper-case percent spelling of all others |
| Keys.KeysInjective | go/protocol.go:140-154 | Neither logical nor value keys are shared by identities that differ in any component |
| Keys.WatermarkNamesEntity | go/protocol.go:140-154 | Watermark keys are equal exactly for the same entity, and never equal a value key |
| Keys.SameHashTag | go/protocol.go:140-154 | The value and watermark keys of a tracked entity have the same cluster hash tag |
| Envelope.FirstZstdFrame | go/codec.go:660-700 | The block-walking loop computes the first frame |
| Envelope.FirstFrameExact | go/codec.go:657-700 | The walk returns f if and only if f is a prefix of the body and one whole frame (section 3.1.1 of RFC 8878); trailers are ignored |
| Envelope.RawRoundTrip | go/codec.go:559-564 | Escaping is undone exactly and no raw payload is read as compressed, at any limit |
| Envelope.CompressedBody | go/codec.go:605-655 | A compressed nonempty body decodes to its bytes whatever trailer follows the frame |
| Envelope.CompressionRoundTrip | go/codec.go:565-655 | What is written reads back, for every payload, threshold and shared limit, negative limits and the empty payload included |
| Envelope.StoredCodecIsLawful | go/codec.go:586-591 | The laws asked of the codec can be met, also by one that emits nothing for the empty input |
| Envelope.NeverLongerThanRaw | go/codec.go:565-604 | The stored form is never longer than the escaped raw form, and compressed exactly when shorter |
| Envelope.CompressedExactly | go/codec.go:565-604 | Each write outcome if and only if its condition on threshold, limit and encoder output |
| Envelope.DecompressedExactly | go/codec.go:605-655 | Each read outcome of a marked payload if and only if its condition; whatever is not decompressed is returned unchanged |
| Envelope.EscapedOnlyWhenAmbiguous | go/codec.go:559-564 | Exactly the binary payloads starting with 0, 1 or 2 get one zero byte |
| Envelope.BlockHeaderBytes | go/codec.go:676-678 | Block headers are 24 bits, least significant byte first |
| Policy.MergeShadow | rust/src/policy.rs:682-717 | The merged group, read alone, means what both layers mean together; a malformed group fails exactly when its shape is wrong |
| Policy.RustResolve | rust/src/policy.rs:682-778 | Merge then re-expand gives the leaf-by-leaf meaning of the policy, for every typed static group and every runtime value |
| Policy.GoResolve | go/policy.go:540-617 | Expand then overlay gives the same meaning |
| Policy.PyMergeShadow | python/dialcache/config.py:217-244 | The dictionary merge keeps the meaning of both layers |
| Policy.PyResolve | python/dialcache/config.py:193-298 | Normalizing, merging or not, and judging gives the same meaning, of the group under Python's names |
| Policy.PortsAgreeExactly | python/dialcache/config.py:81-85 | Rust, Go and Python resolve a runtime group alike for every static group if and only if its snake_case names write the same leaves with the same effect as its portable ones |
| Policy.PortableNamesAgree | go/policy.go:540-617 | Without snake_case names the three ports agree on every runtime value |
| Policy.SnakeCaseDiverges | python/dialcache/config.py:81-85 | A shorthand written only as log_mismatches is read by Python alone, whatever its value; true turns logging on there and leaves it off in the others |
| Policy.SnakeCaseGroupFails | python/dialcache/config.py:91-96 | A mismatch_logging that is not an object fails in Python and is ignored by the others |
| Policy.PyNormalize | python/dialcache/config.py:73-96 | Snake_case names win over portable ones; keeping only known leaves keeps the meaning; a wrong shape is an error |
| Policy.Expand | rust/src/policy.rs:730-753 | One layer's leaves: written ones beat the shorthand, and only a non-boolean shorthand is invalid |
| Policy.PyExpand | python/dialcache/config.py:259-280 | The same leaves as a mapping |
| Policy.PyJudge | python/dialcache/config.py:283-298 | Judging each leaf on its own gives the meaning of a single group |
| Policy.ShorthandHidesInherited | go/policy.go:534-572 | A runtime shorthand replaces both inherited leaves |
| Policy.ShorthandTable | rust/src/policy.rs:730-778 | The shorthand alone: true is value and values, false is off, anything else is off and an error |
| Policy.WrittenLeafDecides | rust/src/policy.rs:744-778 | A written leaf decides against every shorthand and the other layer; an invalid one is off and an error |
| Policy.UnwrittenLeafInherits | go/policy.go:574-584 | A leaf the runtime layer leaves out is the static layer's own |
| Utf8.ReplacementUtf8 | go/protocol.go:325-359 | The repair loop terminates and computes the repair |
| Utf8.SubpartLength | go/protocol.go:333-356 | The inner loop consumes what one replacement swallows |
| Utf8.SwallowedIsMaximalSubpart | go/protocol.go:322-356 | What is swallowed is a maximal subpart of an ill-formed sequence (section 3.9 of The Unicode Standard) |
| Utf8.SegmentationExists | go/protocol.go:325-359 | Every byte string splits into characters and maximal subparts |
| Utf8.RepairReplacesSubparts | go/protocol.go:325-359 | For any such split, repair keeps the characters and writes one U+FFFD per subpart |
| Utf8.RepairWellFormed | go/protocol.go:325-359 | The output is well-formed UTF-8 (section 4 of RFC 3629) |
| Utf8.RepairFixesOnlyIllFormed | go/protocol.go:325-359 | Repair leaves a text alone exactly when it is well-formed, and is idempotent |
| Clamp.ClampLogUtf8 | go/metrics.go:61-71 | The Go clamp computes the clamp of the repaired text |
| Clamp.ClampUtf8 | rust/src/preview.rs:82-94 | The Rust clamp computes the same clamp on well-formed text |
| Clamp.ClampedKeepsLongestPrefix | rust/src/preview.rs:80-94 | A text that fits is kept whole; a longer one keeps its longest whole-character prefix that fits, then the marker |
| Clamp.MarkerText | rust/src/preview.rs:14-22 | The marker's text and the byte budgets |
| Clamp.EarlyCutInvisible | go/shadow_log.go:19-27 | Clamping the 516-byte cut of a well-formed pointer equals clamping the whole pointer, even when the cut splits a character |
| Preview.JsonPrefix.Write | rust/src/preview.rs:58-65 | The buffer is the capped prefix of everything written, and every byte counts as written |
| Preview.JsonPrefix.Finish | rust/src/preview.rs:39-54 | The text is the clamp of everything written |
| Preview.StreamedPreview | rust/src/preview.rs:26-78 | For every split of a well-formed text into chunks, streaming equals clamping the whole |
| Preview.ClampByDecoding | python/dialcache/_shadow_log.py:46-51 | Cutting bytes and decoding with errors ignored equals the clamp |
| Preview.TokenCutInvisible | python/dialcache/_shadow_log.py:199-202 | Cutting each token to 512 code points first does not change the clamped pointer |
| Preview.PortsLogSamePointer | python/dialcache/_shadow_log.py:199-202 | Go and Python log the same text for every pointer |
| Json.SortNames | go/shadow_log.go:234-243 | Every member name once, in strictly ascending order |
| Json.OrderByFirstDifference | go/protocol.go:82-90 | That order decided by the first differing character: by code point, but astral characters before U+E000 to U+FFFF |
| Json.EscapeByCharacter | go/shadow_log.go:263-265 | Token escaping is section 3 of RFC 6901, character by character |
| Json.UnescapeInverts | go/shadow_log.go:263-265 | Token escaping is undone by section 4 of RFC 6901 |
| Json.PointerRoundTrip | go/shadow_log.go:263-265 | A printed pointer parses back to its reference tokens |
| Json.IndexRoundTrip | go/shadow_log.go:226-229 | Printed array indices parse back |
| JsonDiff.PatchYieldsSource | go/shadow_log.go:201-258 | Applying the uncut difference list to the cached value yields the source value, at every depth |
| JsonDiff.NoEntriesIffEqual | go/shadow_log.go:201-258 | No entries exactly when the values are equal |
| JsonDiff.EntriesApart | go/shadow_log.go:201-258 | Reported pointers are distinct and none is an ancestor of another |
| JsonDiff.EntriesTruthful | go/shadow_log.go:193-258 | Each entry's sides are what the two documents hold at its pointer |
| JsonDiff.EntriesFinest | go/shadow_log.go:213-258 | No entry lies deeper than 32 tokens, and one whose sides could be compared further lies exactly there |
| JsonDiff.EntriesInOrder | go/shadow_log.go:226-256 | Entries come in walk order at every level: items by index, members by name order |
| JsonDiff.DiffPatch | go/shadow_log.go:183-261 | The same through printed JSON Pointers: parse, then patch, yields the source |
| JsonWalk.Walker.Report | go/shadow_log.go:193-199 | The count grows by one; the entry is kept, with the cut pointer, only within the first 64 |
| JsonWalk.Walker.ReportMember | go/shadow_log.go:245-252 | A one-sided member is reported under its name and the pointer is as before |
| JsonWalk.Walker.Walk | go/shadow_log.go:201-258 | The walk appends exactly the differences under the current pointer and restores the shared buffer |
| JsonWalk.Walker.WalkItems | go/shadow_log.go:220-232 | The same for the items of two arrays |
| JsonWalk.Walker.WalkMembers | go/shadow_log.go:233-257 | The same for the members of two objects, in UTF-16 order |
| JsonWalk.Walker.WalkMember | go/shadow_log.go:244-256 | The same for one member name |
| JsonWalk.WalkJson | go/shadow_log.go:183-261 | The entries record exactly the first min(64, count) differences, both sides and at most 516 pointer bytes each, and the count is the uncut total; with at most 64 and no path at the copy limit they patch the cached value into the source |
| JsonWalk.LoggedEntriesRebuild | go/shadow_log.go:183-261 | When no pointer was cut, the recorded bytes, read as UTF-8 and as JSON Pointers, and the source sides rebuild the source |
| JsonWalk.PointerBytesAreUtf8 | go/shadow_log.go:219-257 | The shared buffer holds the UTF-8 of the pointer text |
| JsonWalk.DecodedText | go/shadow_log.go:193-199 | That UTF-8 reads back as the text |
| JsonWalk.LoggedPathsClampWhole | go/shadow_log.go:185-199 | A kept entry's copied pointer clamps to the same text as the whole pointer |
| JsonEqual.JsonEqual | python/dialcache/_shadow_log.py:205-228 | The worklist loop terminates and decides equality |
| JsonEqual.PushItems | python/dialcache/_shadow_log.py:216-219 | Pushed item pairs agree exactly when the arrays do |
| JsonEqual.PushMembers | python/dialcache/_shadow_log.py:220-226 | A missing name, or pushed member pairs that agree exactly when the objects do |
| Lru.LocalCache.Get | python/dialcache/local.py:43-56 | A hit moves to the end and keeps its expiry, an expired entry is removed, order and distinct keys are kept |
| Lru.LocalCache.Put | python/dialcache/local.py:62-71 | The entry goes last and the oldest are evicted down to capacity; a rejected TTL or zero capacity changes nothing |
| Lru.RunValid | python/dialcache/local.py:43-71 | Over any trace keys stay distinct and the size at most the capacity |
| Lru.HitIsLatestFreshPut | python/dialcache/local.py:43-71 | Every hit is the latest put of its key, with floor(now) below floor(put time) plus TTL |
| Lru.RoomyStoreIsHistory | python/dialcache/local.py:43-71 | With a place for every key ever put and an advancing clock, the store answers exactly as the put history |
| Lru.StoreInTouchOrder | python/dialcache/local.py:43-71 | Entries are ordered by their last touch, reads included |
| Lru.EvictionTakesOldest | python/dialcache/local.py:62-71 | Over any trace a put evicts at most one other key, the one whose last put or fresh read is the oldest |
| Lru.RunsIncluded | python/dialcache/local.py:43-71 | A smaller store's content is always a subsequence of a larger one's on the same trace |
| Lru.LargerCapacityKeepsHits | python/dialcache/local.py:43-71 | Every hit at capacity n is the same hit at any capacity m >= n |

## Left out

- Redis, its client libraries, cluster routing, script caching and reply validation: the script, SET PX and the two-key read are state transitions; liveness of a key is `now < expiry`.
- Corruption of watermark keys by others: the script's repair of malformed and wrong-type values is in `Watermark`, but `Fence` runs start from an absent marker and contain no foreign writes.
- zstd itself: a codec is any triple of functions for which the parsed header lies in the input and ignores what follows, the encoder emits one frame for every nonempty input and the decoder inverts it. Compression configuration defaults and levels are not modelled.
- Settled.Cell.Settle: returns the taken wakers; calling them one by one is the Wake step of the interleavings.
- Shadow.VerdictsAreSound: each gate and the effect it guards are one step, so a pause between the check and the effect is not modelled. Classifying a shadow read's age, rendering and delivering the mismatch warning and the outcome callbacks are left out.
- SingleFlight.RequestAgrees: a memo entry of another value type (a programming error that the code treats as a miss) is not modelled.
- SingleFlight: nested Enable and Disable contexts, which share the outer scope, are the caller's choice of table.
- Deadline: cancellation of the context after a timeout.
- Engine: one key per chain; ramp sampling, layer metrics, the recovery predicate's own failure and the local store's contents are inputs. The dark path of a ramped-down key is its source call; its background job is in `Shadow`.
- Engine.Chain.PutRemote: the shadow job's extra permission check before the write is in `Shadow` as a stage.
- Policy: TTL, ramp, recovery and deadline leaves and cohort sampling; only the shadow group is merged by three different algorithms.
- Clamp.ClampLogUtf8: requires a maximum of at least the marker's 14 bytes; the code's smallest cap is 512.
- JsonWalk: Python's walk keeps a list of tokens instead of a byte buffer; only its pointer cut and its equality loop are modelled. JSON numbers are reals, and names are sequences of Unicode scalar values.
- Lru: `clear`, and Go's own local store, which is not part of this model.
- Metrics, events, loggers, identity normalization of arguments, JSON rendering, exporters and tooling: table lookups and plumbing that would only add easy members.
