# Verified model of the portal server's hard core

The repository is a developer portal with a set of continuous-integration scripts. Most of it is
glue; this project models the parts that are algorithms or state machines and proves, for every
input and every run, what they promise.

Objects whose methods update fields are classes, loops are loops, and each such method is proved
equal to a specification function; the theorems are lemmas about those functions and about whole
runs. Recursion over values stays recursion. Time is an integer that is passed in, random tokens
are parameters that are drawn fresh, the network, hashing and decompression are uninterpreted
functions, money and pixels are exact reals.

| file | models |
|---|---|
| `CanonicalJson.dfy` | the canonical JSON printer, with a reader as its partner |
| `Tailing.dfy`, `LogPipeline.dfy`, `HeartbeatPipeline.dfy` | the two file tailers and runs of appends, rotations, rewrites, removals and watcher events |
| `CostPipeline.dfy` | the coalescing reader |
| `AggregationCache.dfy` | the TTL, least-recently-used and memory-bounded cache |
| `Cidr.dfy`, `Numerals.dfy` | IPv4 and IPv6 text, byte masks and address ranges |
| `ConfigTrees.dfy`, `Prototypes.dfy`, `FormParser.dfy`, `MergeLaws.dfy`, `DeepMerge.dfy` | nested configuration: objects with their prototypes, form data, flattening, merging |
| `ConfirmationTokens.dfy`, `ActionGate.dfy` | one-shot tokens and the gate in front of contributed actions |
| `Markdown.dfy` | the block tokenizer and HTML escaping |
| `SpendArtifacts.dfy`, `Tally.dfy` | the single-entry ZIP reader, batching, filtering and summing of spend artifacts |
| `Calendar.dfy`, `Lexicographic.dfy`, `Rollups.dfy`, `CostQueries.dfy`, `Rounding.dfy` | the daily and monthly cost rollups |
| `Scales.dfy`, `StackedBars.dfy` | tick ladders, scales and the geometry of stacked bars |
| `Splitting.dfy`, `Octets.dfy`, `Wrappers.dfy` | splitting and joining, bytes, `Option` and `Result` |

## Where the code differs from what is said of it

* `canonicalize` is unambiguous up to key order only if numbers are read as printed: `-0` prints as
  `0`, and a number too large for a double prints as `null` (`CanonicalJson.NumbersThatCollide`).
  `CanonicalJson.CanonicalInjective` states injectivity for that reading, in both directions.
* A header-like line such as `# a` followed by a bare carriage return makes `tokenize` loop for ever;
  `Markdown.TerminatesIffClean` says exactly which inputs it ends on.
* `deepMerge` merges objects as trees, whatever the order of their keys, only where no path goes through an
  own `__proto__`, which a parsed user file can have: a parsed object merges like its tree with every
  object that has none, exactly if it has none itself (`DeepMerge.MergesPlainlyIff`). Elsewhere objects
  that a result inherits are merged in, so that the order of keys and the grouping of sources matter
  (`DeepMerge.KeyOrderMatters`, `DeepMerge.InheritedObjectsMerge`).
* Among sources without an own `__proto__`, `deepMerge` is still not associative;
  `DeepMerge.GroupsAlikeIff` gives the exact condition.
* A form reads back as sent exactly when no allowed key's path starts with another's and none has a
  segment `__proto__` (`FormParser.RoundTripsIffNoClash`). `trustLevels.a` and `trustLevels.a.b` clash
  (`FormParser.NestedSlugsClash`); `trustLevels.__proto__` stores nothing (`FormParser.ProtoKeyIsLost`);
  a longer path through `__proto__` writes to the prototype all objects share, so that the path after
  it, allowed or not, reads in every object (`FormParser.ProtoPathIsShared`). What a form of one allowed
  key leaves in it is nothing exactly if the first `__proto__` of its path, if any, ends it or is followed
  by another (`FormParser.LeavesAloneIffStaysOff`).
* `deepMerge` loses an own `__proto__`, so the empty object is neutral exactly for objects that have
  none at their top level (`DeepMerge.EmptyIsNeutral`).
* Rotation and truncation are noticed by inode and size alone, so a file that was rewritten in place
  and grew back past the offset between two looks is read as if it had been appended to
  (`LogPipelines.BlindLookMixesFiles`); that comes out right exactly if the file holds the bytes that
  were read (`LogPipelines.BlindLookIff`). The heartbeat tailer does not look at inodes and also joins
  the old file's open line to a rotated one (`HeartbeatPipelines.RotationJoinsFiles`);
  `HeartbeatPipelines.ForeignLookIff` says when a look at another file comes out right.
* A stopped pipeline keeps its partial line, and joins it to the first line it reads after it is
  started again on a file (`LogPipelines.StopKeepsOldBytes`); a start is clean exactly if there is none
  (`LogPipelines.CleanStartIff`).
* An event that arrives while a rerun is in progress is not followed by a read until the next event
  (`CostPipelines.EventDuringRerunWaits`).
* contrib/rbac.ts says that the first match wins. An actor's own entry beats an earlier wildcard, and
  of several wildcards the last one counts (`ActionGates.LaterEntryWins`);
  `ActionGates.FirstMatchWinsIff` says exactly when the first match does win.
* The gate's tokens are not bound to the actor they were issued to and the phrase is not compared,
  so neither is claimed.
* An entry whose timestamp names no real day is counted in its month but in none of the month's
  days; a month agrees with its days exactly if such entries amount to nothing
  (`CostQueries.FullMonth`, `CostQueries.NoSuchDay`).

## Model

| member | source | states |
|---|---|---|
| CanonicalJson.ReadCanonical | scripts/ci/canonical-json.js:16-31 | a JSON reader, run on a canonical text followed by nothing or a delimiter, returns the value with its members in key order and leaves exactly what follows |
| CanonicalJson.ReadEscaped | scripts/ci/canonical-json.js:17-19 | reading an escaped string up to its closing quote gives the string back, for all code units, surrogates with and without partner included |
| CanonicalJson.PrefixCode | scripts/ci/canonical-json.js:16-31 | two canonical texts, each followed by nothing or a delimiter, agree if and only if the values are equal up to key order and what follows is equal |
| CanonicalJson.CanonicalInjective | scripts/ci/canonical-json.js:16-31 | the signed text is the same if and only if the values are equal with objects read as unordered maps |
| CanonicalJson.CanonicalRoundTrip | scripts/ci/canonical-json.js:16-31 | the whole text reads back, with nothing left over, as the normal form of the printed value, which is equal to it as unordered maps |
| CanonicalJson.SameNorm | scripts/ci/canonical-json.js:23-31 | ordering members at every level identifies exactly the values that are equal as unordered maps |
| CanonicalJson.AscendingUnique | scripts/ci/canonical-json.js:23-23 | a set of keys has only one sorted order |
| CanonicalJson.NumbersThatCollide | scripts/ci/canonical-json.js:17-19 | the two families of different numbers that share a text |
| CanonicalJson.EscapeIsShortest | scripts/ci/canonical-json.js:17-19 | no shorter text reads as a code unit than the one it is escaped as, which may stand for itself where no escape is needed |
| CanonicalJson.EscapesAreLowerCase | scripts/ci/canonical-json.js:17-19 | hexadecimal digits of an escape are written in lower case |
| CanonicalJson.WordsLookLikeJson | scripts/ci/canonical-json.js:17-19 | null, true and false are printed as those words |
| CanonicalJson.ListsLookLikeJson | scripts/ci/canonical-json.js:20-31 | arrays and objects are printed with the brackets, colons and commas of JSON and no space, members in key order |
| CanonicalJson.KeyOrder | scripts/ci/canonical-json.js:23-23 | key order: a proper prefix comes first, else the first code unit that differs decides |
| LogPipelines.LogPipeline.constructor | plugins/autonomous-dev-portal/server/integration/log-pipeline.ts:56-65 | initial fields |
| LogPipelines.LogPipeline.Start | plugins/autonomous-dev-portal/server/integration/log-pipeline.ts:67-102 | a second start changes nothing; the first one begins at byte 0 or at the end of the file, and drains it when told to begin at byte 0 |
| LogPipelines.LogPipeline.Stop | plugins/autonomous-dev-portal/server/integration/log-pipeline.ts:104-112 | stopping clears only the started flag: offset and buffer stay |
| LogPipelines.LogPipeline.Handle | plugins/autonomous-dev-portal/server/integration/log-pipeline.ts:121-153 | fields and signals after a watcher event are those of the specification step the run theorems are about |
| LogPipelines.LogPipeline.Prepare | plugins/autonomous-dev-portal/server/integration/log-pipeline.ts:136-150 | after a delete the next create or change starts over and reports recovery |
| LogPipelines.LogPipeline.Forget | plugins/autonomous-dev-portal/server/integration/log-pipeline.ts:127-134 | a vanished file leaves no offset, inode or buffer behind |
| LogPipelines.LogPipeline.ReadLines | plugins/autonomous-dev-portal/server/integration/log-pipeline.ts:155-224 | one look at the file: missing, not readable, rotated, truncated, grown |
| LogPipelines.LogPipeline.DetectReset | plugins/autonomous-dev-portal/server/integration/log-pipeline.ts:176-193 | rotation by inode, truncation by size, each with its two signals |
| LogPipelines.LogPipeline.Drain | plugins/autonomous-dev-portal/server/integration/log-pipeline.ts:195-224 | reads to the end of the file, reports its complete lines, keeps the open one |
| LogPipelines.LogPipeline.ProcessLines | plugins/autonomous-dev-portal/server/integration/log-pipeline.ts:220-246 | one data or error signal for each non-empty line, in order |
| LogPipelines.InvStep | plugins/autonomous-dev-portal/server/integration/log-pipeline.ts:67-224 | every append, rewrite, rotation, removal, handler call, stop and start keeps the invariant between file, fields and signals |
| LogPipelines.InvRun | plugins/autonomous-dev-portal/server/integration/log-pipeline.ts:67-224 | so does every run |
| LogPipelines.StepReported | plugins/autonomous-dev-portal/server/integration/log-pipeline.ts:121-246 | in one call the line reports come after any recovery, and `recovered` only ever fires with offset 0 and an empty buffer |
| LogPipelines.SignalsTell | plugins/autonomous-dev-portal/server/integration/log-pipeline.ts:121-224 | every signal that is not about a line is emitted exactly on its occasion: another inode, a shorter file, a file that came back, a missing file, a failed look or read |
| Tailing.LinesAreTold | plugins/autonomous-dev-portal/server/integration/log-pipeline.ts:218-246 | each non-empty line is told once, as its payload if it is judged valid and as the matching error if not |
| LogPipelines.NotifyReads | plugins/autonomous-dev-portal/server/integration/log-pipeline.ts:155-224 | after a look at a file the fields describe that file, whatever rotation, truncation or deletion came before |
| LogPipelines.TailRefinement | plugins/autonomous-dev-portal/server/integration/log-pipeline.ts:67-246 | over every possible run, rotations, truncations, deletions, stops and starts included: after a look the listeners have been told, since the last restart, exactly one signal for each non-empty complete line of the current file from the start byte, in order, namely the payload of a line judged valid and the matching error for any other; the payloads are those of the valid lines; the buffer is the open piece; after any restart the start byte is 0 |
| LogPipelines.TailRefinementBetween | plugins/autonomous-dev-portal/server/integration/log-pipeline.ts:155-246 | between looks the same holds of the bytes read so far |
| LogPipelines.ChunkingDoesNotMatter | plugins/autonomous-dev-portal/server/integration/log-pipeline.ts:155-246 | for append-only runs, however chunked: one signal for each non-empty complete line in order, payloads for exactly the valid ones, and the rest in the buffer |
| LogPipelines.BlindLookMixesFiles | plugins/autonomous-dev-portal/server/integration/log-pipeline.ts:187-224 | the run that has to be excluded: two bytes are read, the file is rewritten and grows back, and a line it never held is reported |
| LogPipelines.BlindLookIff | plugins/autonomous-dev-portal/server/integration/log-pipeline.ts:155-224 | a look that goes on in a file of the same inode leaves the file's lines and open piece if and only if the file still holds, up to the offset, the bytes that were read |
| LogPipelines.CleanStartIff | plugins/autonomous-dev-portal/server/integration/log-pipeline.ts:67-112 | a start on a file is clean, with lines and open piece of what is read from then on, if and only if the buffer is empty |
| LogPipelines.StopKeepsOldBytes | plugins/autonomous-dev-portal/server/integration/log-pipeline.ts:67-112 | the run in which bytes from before a stop join a line read after the next start |
| Tailing.LinesInChunks | plugins/autonomous-dev-portal/server/integration/log-pipeline.ts:213-218 | splitting two chunks with the open piece carried over splits the whole |
| Tailing.GoingOn | plugins/autonomous-dev-portal/server/integration/log-pipeline.ts:195-218 | reading on at an offset gives the lines of the file if and only if the file holds before the offset what was read |
| HeartbeatPipelines.HeartbeatPipeline.constructor | plugins/autonomous-dev-portal/server/integration/heartbeat-pipeline.ts:39-47 | initial fields |
| HeartbeatPipelines.HeartbeatPipeline.Start | plugins/autonomous-dev-portal/server/integration/heartbeat-pipeline.ts:49-75 | begins at the end of the file, once |
| HeartbeatPipelines.HeartbeatPipeline.Stop | plugins/autonomous-dev-portal/server/integration/heartbeat-pipeline.ts:77-88 | stopping clears only the started flag |
| HeartbeatPipelines.HeartbeatPipeline.Handle | plugins/autonomous-dev-portal/server/integration/heartbeat-pipeline.ts:94-116 | fields and signals after a watcher event |
| HeartbeatPipelines.HeartbeatPipeline.ReadLines | plugins/autonomous-dev-portal/server/integration/heartbeat-pipeline.ts:118-168 | one look at the file, truncation noticed by size only |
| HeartbeatPipelines.HeartbeatPipeline.ProcessLines | plugins/autonomous-dev-portal/server/integration/heartbeat-pipeline.ts:163-184 | one signal for each non-empty line, in order |
| HeartbeatPipelines.SameStep | plugins/autonomous-dev-portal/server/integration/heartbeat-pipeline.ts:94-168 | as long as the inode stays, a heartbeat step leaves the fields a log step leaves and emits the same, but for the two truncation signals it does not have and the recovery that only a create brings; on a change without a file it acts as a tailer that kept nothing if and only if its buffer is empty or no file is there |
| HeartbeatPipelines.BeatSignalsTell | plugins/autonomous-dev-portal/server/integration/heartbeat-pipeline.ts:94-168 | every signal that is not about a line is emitted exactly on its occasion, and rotation and truncation are never announced |
| HeartbeatPipelines.SameQuietRun | plugins/autonomous-dev-portal/server/integration/heartbeat-pipeline.ts:94-184 | over a run in which the file only grows, fields and signals are the log tailer's |
| HeartbeatPipelines.HeartbeatFollowsLog | plugins/autonomous-dev-portal/server/integration/heartbeat-pipeline.ts:49-184 | hence it inherits the exactly-once, in-order theorem from the start of the tailer on |
| HeartbeatPipelines.BeatInvStep | plugins/autonomous-dev-portal/server/integration/heartbeat-pipeline.ts:49-168 | every append, rewrite, rotation, removal, handler call, stop and start keeps the invariant between file, fields and signals |
| HeartbeatPipelines.HeartbeatRefinement | plugins/autonomous-dev-portal/server/integration/heartbeat-pipeline.ts:49-184 | over every run in which no look meets a replaced or rewritten file as long as what was read, truncations, deletions and rotations included: after a look the listeners have been told, since the last restart, one signal for each non-empty complete line of the current file from the start byte, in order, with the payloads of exactly the valid ones; that byte is byte 0 after any restart |
| HeartbeatPipelines.ForeignLookIff | plugins/autonomous-dev-portal/server/integration/heartbeat-pipeline.ts:118-168 | a look at a file that is not the one read from leaves that file's lines and open piece if and only if it shrank below the offset or holds, up to it, just the bytes still in the buffer |
| HeartbeatPipelines.CleanBeginIff | plugins/autonomous-dev-portal/server/integration/heartbeat-pipeline.ts:49-88 | a start is clean if and only if the buffer is empty |
| HeartbeatPipelines.RotationJoinsFiles | plugins/autonomous-dev-portal/server/integration/heartbeat-pipeline.ts:118-168 | the run after which the old open line and the new file make one line, beside the log tailer's on the same schedule |
| CostPipelines.CostPipeline.constructor | plugins/autonomous-dev-portal/server/integration/cost-pipeline.ts:40-50 | initial fields |
| CostPipelines.CostPipeline.Schedule | plugins/autonomous-dev-portal/server/integration/cost-pipeline.ts:88-122 | what an event does to the flags, which read it starts and what it emits |
| CostPipelines.CostPipeline.FinishRead | plugins/autonomous-dev-portal/server/integration/cost-pipeline.ts:111-163 | what a finished read reports and which read its callback starts |
| CostPipelines.InvStep | plugins/autonomous-dev-portal/server/integration/cost-pipeline.ts:88-122 | every event and every completion keeps flags, reads in flight and unserved events consistent |
| CostPipelines.CoalescingSafety | plugins/autonomous-dev-portal/server/integration/cost-pipeline.ts:88-122 | over all interleavings: at most one read in flight, no more reads than events, no unserved event while the flag is down, and when idle an unserved event if and only if the flag is up, which only a rerun leaves behind |
| CostPipelines.ReadsAreReported | plugins/autonomous-dev-portal/server/integration/cost-pipeline.ts:88-163 | over any run the data listeners get the payload of every read that found a valid file, in order and nothing else, and the error listeners one error of its kind for every event or read that calls for it |
| CostPipelines.ReturnsAreReported | plugins/autonomous-dev-portal/server/integration/cost-pipeline.ts:88-136 | over any run a create event is reported as a recovery if and only if the file was missing, since a delete event or a read that did not find it |
| CostPipelines.EventDuringRerunWaits | plugins/autonomous-dev-portal/server/integration/cost-pipeline.ts:111-121 | the run after which an event stays unserved |
| AggregationCaches.AggregationCache.constructor | plugins/autonomous-dev-portal/server/cache/AggregationCache.ts:23-48 | an empty cache |
| AggregationCaches.AggregationCache.GetKey | plugins/autonomous-dev-portal/server/cache/AggregationCache.ts:50-67 | hit, miss, expiry and shutdown, with every counter |
| AggregationCaches.AggregationCache.SetKey | plugins/autonomous-dev-portal/server/cache/AggregationCache.ts:69-87 | the new entry, then size eviction, then memory eviction |
| AggregationCaches.AggregationCache.EvictLeastRecent | plugins/autonomous-dev-portal/server/cache/AggregationCache.ts:149-160 | drops and counts the least recently used entries |
| AggregationCaches.AggregationCache.EvictForMemory | plugins/autonomous-dev-portal/server/cache/AggregationCache.ts:162-173 | drops and counts a fifth of the entries, rounded up, at least one |
| AggregationCaches.AggregationCache.EstimateMemoryMB | plugins/autonomous-dev-portal/server/cache/AggregationCache.ts:175-181 | the estimate the memory bound is compared with |
| AggregationCaches.AggregationCache.InvalidateKey | plugins/autonomous-dev-portal/server/cache/AggregationCache.ts:89-93 | removes and counts the key, and says whether it was there |
| AggregationCaches.AggregationCache.InvalidateMatching | plugins/autonomous-dev-portal/server/cache/AggregationCache.ts:95-105 | removes and counts exactly the matching keys |
| AggregationCaches.AggregationCache.Sweep | plugins/autonomous-dev-portal/server/cache/AggregationCache.ts:139-147 | removes and counts exactly the expired entries |
| AggregationCaches.AggregationCache.ClearAll | plugins/autonomous-dev-portal/server/cache/AggregationCache.ts:119-124 | no entries, all counters zero |
| AggregationCaches.AggregationCache.ShutDown | plugins/autonomous-dev-portal/server/cache/AggregationCache.ts:127-135 | no entries, nothing accepted any more, counters kept |
| AggregationCaches.EvictChoosesOldest | plugins/autonomous-dev-portal/server/cache/AggregationCache.ts:149-173 | an eviction of n removes exactly n entries or all, and no victim was used after any survivor |
| AggregationCaches.NewestSurvives | plugins/autonomous-dev-portal/server/cache/AggregationCache.ts:149-160 | the entry used last, added last among equals, is never a victim while another entry can be |
| AggregationCaches.SetEvicts | plugins/autonomous-dev-portal/server/cache/AggregationCache.ts:69-87 | after every set the size is within the bound, a memory eviction removes max(1, a fifth rounded up), and victims of both evictions were used no later than survivors |
| AggregationCaches.UsesAreRecorded | plugins/autonomous-dev-portal/server/cache/AggregationCache.ts:50-84 | after any run every entry carries the time of the latest get or set of its key, and the size of its value's text |
| AggregationCaches.EvictsLeastRecentlyUsed | plugins/autonomous-dev-portal/server/cache/AggregationCache.ts:50-173 | by the call history alone, after any run: of the keys that were there or are being set, those that either eviction of a set drops were last got or set no later than those it leaves; the size eviction goes down to the bound, the memory eviction drops a fifth, rounded up, exactly if the estimate exceeds the limit |
| AggregationCaches.MemoryIs | plugins/autonomous-dev-portal/server/cache/AggregationCache.ts:162-193 | after any run the estimate is 200 bytes an entry, two a character of key and text, and 1024 for a value without text |
| AggregationCaches.CountersCountAnswers | plugins/autonomous-dev-portal/server/cache/AggregationCache.ts:50-66 | hits and misses count the get calls that were answered and those that were not |
| AggregationCaches.LossesByKind | plugins/autonomous-dev-portal/server/cache/AggregationCache.ts:50-173 | what an operation removes is counted under its own kind and no other |
| AggregationCaches.SweepLeavesAlive | plugins/autonomous-dev-portal/server/cache/AggregationCache.ts:139-147 | a sweep leaves exactly the entries still within their TTL |
| AggregationCaches.JustWrittenSurvives | plugins/autonomous-dev-portal/server/cache/AggregationCache.ts:69-84 | after any run with a clock that does not go back, the size eviction of a set never drops the key just written |
| AggregationCaches.NewKeySurvivesIff | plugins/autonomous-dev-portal/server/cache/AggregationCache.ts:69-87 | after any such run a key that was not there survives the whole set, both evictions included, if and only if memory is within bounds after the size eviction or at least two entries are left by it |
| AggregationCaches.RunAgrees | plugins/autonomous-dev-portal/server/cache/AggregationCache.ts:50-147 | after any run of all operations every cached entry is what the call history says was stored last |
| AggregationCaches.HitIsLatest | plugins/autonomous-dev-portal/server/cache/AggregationCache.ts:50-147 | a hit returns the value of the latest set, not invalidated since and within its TTL |
| AggregationCaches.HitIffAlive | plugins/autonomous-dev-portal/server/cache/AggregationCache.ts:50-147 | when nothing was evicted for size or memory, a get is a hit if and only if that value is still alive |
| AggregationCaches.GoneIsExpired | plugins/autonomous-dev-portal/server/cache/AggregationCache.ts:50-147 | without such evictions everything stored and gone has expired |
| AggregationCaches.EveryInsertionAccounted | plugins/autonomous-dev-portal/server/cache/AggregationCache.ts:50-173 | until shutdown the insertions of absent keys since the last clear equal the size plus the four eviction counters |
| Cidr.ParseIPv4Bytes | plugins/autonomous-dev-portal/server/auth/cidr-utils.ts:26-38 | the four bytes of a dotted quad, or none |
| Cidr.V4RoundTrip | plugins/autonomous-dev-portal/server/auth/cidr-utils.ts:26-38 | printing four bytes as a dotted quad and parsing it gives them back |
| Cidr.QuadMeans | plugins/autonomous-dev-portal/server/auth/cidr-utils.ts:15-31 | a dotted text is an address if and only if it has four parts of one to three digits with values below 256, which are its bytes |
| Cidr.ParseIPv6Bytes | plugins/autonomous-dev-portal/server/auth/cidr-utils.ts:40-88 | the sixteen bytes of an address text, or none |
| Cidr.ReplaceQuad | plugins/autonomous-dev-portal/server/auth/cidr-utils.ts:45-57 | a dotted-quad tail becomes two groups |
| Cidr.ExpandDouble | plugins/autonomous-dev-portal/server/auth/cidr-utils.ts:58-75 | a double colon becomes the missing zero groups |
| Cidr.FillGroups | plugins/autonomous-dev-portal/server/auth/cidr-utils.ts:76-87 | eight groups become sixteen bytes |
| Cidr.FullGroups | plugins/autonomous-dev-portal/server/auth/cidr-utils.ts:40-88 | eight hexadecimal groups joined by colons mean their bytes, most significant first |
| Cidr.FullGroupsSpell | plugins/autonomous-dev-portal/server/auth/cidr-utils.ts:76-87 | eight groups spell the number of the address in base 65536 |
| Cidr.AcceptedForms | plugins/autonomous-dev-portal/server/auth/cidr-utils.ts:40-93 | a text without a dot is an address if and only if it is eight groups, or two lists of together eight groups at most around a double colon |
| Cidr.CompressedAddress | plugins/autonomous-dev-portal/server/auth/cidr-utils.ts:58-87 | replacing any run of zero groups, at any place, by a double colon does not change the address (section 2.2 of RFC 4291) |
| Cidr.QuadTail | plugins/autonomous-dev-portal/server/auth/cidr-utils.ts:43-57 | a dotted-quad tail means the two groups of its bytes |
| Cidr.CompressedWithQuad | plugins/autonomous-dev-portal/server/auth/cidr-utils.ts:43-87 | the same compression with a dotted quad for the last 32 bits |
| Cidr.IPv4FromMappedV6 | plugins/autonomous-dev-portal/server/auth/cidr-utils.ts:95-104 | the dotted form of the addresses from 0xffff * 2^32 to below 2^48, and of no other |
| Cidr.MappedQuad | plugins/autonomous-dev-portal/server/auth/cidr-utils.ts:98-103 | ten zero bytes and two of 0xff are the addresses whose number lies from 0xffff * 2^32 to below 2^48 |
| Cidr.MappedText | plugins/autonomous-dev-portal/server/auth/cidr-utils.ts:166-180 | `::ffff:` in front of any dotted quad yields the same family and bytes as the quad |
| Cidr.MappedVerdict | plugins/autonomous-dev-portal/server/auth/cidr-utils.ts:163-189 | in every range an IPv4-mapped address, however written, gets the verdict of its dotted form (section 2.5.5.2 of RFC 4291) |
| Cidr.MaskBytes | plugins/autonomous-dev-portal/server/auth/cidr-utils.ts:106-120 | keeps the leading bits of every byte, by and-ing |
| Cidr.KeptByMask | plugins/autonomous-dev-portal/server/auth/cidr-utils.ts:115-116 | and-ing a byte with the shifted mask rounds it down to a multiple of a power of two |
| Cidr.MaskValue | plugins/autonomous-dev-portal/server/auth/cidr-utils.ts:106-120 | masking N bits to a prefix p yields v - v mod 2^(N-p) of the number the bytes spell |
| Cidr.ParseCIDR | plugins/autonomous-dev-portal/server/auth/cidr-utils.ts:132-160 | the range of an address text and a prefix length, or the error |
| Cidr.ParsedIsRange | plugins/autonomous-dev-portal/server/auth/cidr-utils.ts:133-160 | a parsed range has a prefix that fits its family and a base that is a multiple of its size |
| Cidr.IpInCIDR | plugins/autonomous-dev-portal/server/auth/cidr-utils.ts:163-189 | the verdict, from the normalised address |
| Cidr.SameArrays | plugins/autonomous-dev-portal/server/auth/cidr-utils.ts:184-188 | true exactly for equal byte strings |
| Cidr.IpInAnyCIDR | plugins/autonomous-dev-portal/server/auth/cidr-utils.ts:191-196 | true exactly when some range holds the address |
| Cidr.InRangeIsInterval | plugins/autonomous-dev-portal/server/auth/cidr-utils.ts:163-189 | an address is in a range if and only if it has its family, as normalised, and lies in the interval of 2^(N-p) values at the base |
| Cidr.InRangeByNumber | plugins/autonomous-dev-portal/server/auth/cidr-utils.ts:95-189 | an IPv6 text, by its number alone: in the mapped block it is inside exactly the IPv4 ranges whose interval holds the number less 0xffff * 2^32, elsewhere exactly the IPv6 ranges whose interval holds it |
| Cidr.InRangeByNumberV4 | plugins/autonomous-dev-portal/server/auth/cidr-utils.ts:163-189 | an IPv4 text is inside exactly the IPv4 ranges whose interval holds its number; a text that is no address is in no range |
| Cidr.RangeMeans | plugins/autonomous-dev-portal/server/auth/cidr-utils.ts:106-161 | which texts and prefixes make a range, and that it starts at the number of the address rounded down to a multiple of its size |
| Cidr.NestedOrDisjoint | plugins/autonomous-dev-portal/server/auth/cidr-utils.ts:163-189 | two ranges of one family are nested or disjoint (section 3.1 of RFC 4632) |
| ConfigTrees.AtPutSame | plugins/autonomous-dev-portal/server/lib/form-parser.ts:78-101 | a write at a path reads back, and everything on the way to it is an object |
| ConfigTrees.AtPutElsewhere | plugins/autonomous-dev-portal/server/lib/form-parser.ts:78-101 | a write changes nothing at paths that neither start it nor start with it |
| ConfigTrees.PutOverFresh | plugins/autonomous-dev-portal/server/lib/form-parser.ts:87-96 | making the missing objects on the way does not change what the write gives |
| Prototypes.PristineSet | plugins/autonomous-dev-portal/server/lib/form-parser.ts:78-101 | where no object was given a prototype and the shared one is untouched, a write along a path without `__proto__` changes the tree at that path and nothing else |
| Prototypes.PristinePush | plugins/autonomous-dev-portal/server/lib/form-parser.ts:104-133 | likewise an append |
| Prototypes.SetMakesLeaf | plugins/autonomous-dev-portal/server/lib/form-parser.ts:78-101 | in any state, prototypes replaced or shared ones written to, a write makes no own leaf but at its path |
| Prototypes.PushMakesLeaf | plugins/autonomous-dev-portal/server/lib/form-parser.ts:104-133 | nor does an append |
| FormParser.ConfigTree.Descend | plugins/autonomous-dev-portal/server/lib/form-parser.ts:83-99 | the state and the cursor after the walk, through own and inherited objects, or that it threw |
| FormParser.ConfigTree.SetNested | plugins/autonomous-dev-portal/server/lib/form-parser.ts:78-101 | the state after walking and assigning, `__proto__` as a last or inner segment included |
| FormParser.ConfigTree.PushNested | plugins/autonomous-dev-portal/server/lib/form-parser.ts:104-133 | the state after walking and appending to the array that is there, own or inherited, or starting one |
| FormParser.ParseFormDataToConfig | plugins/autonomous-dev-portal/server/lib/form-parser.ts:139-163 | the configuration, or that the parse threw, and what it leaves in the shared prototype |
| FormParser.AddRaw | plugins/autonomous-dev-portal/server/lib/form-parser.ts:148-160 | a list key pushes all its values, another key sets its last one |
| FormParser.OnlyAllowedLeaves | plugins/autonomous-dev-portal/server/lib/form-parser.ts:139-163 | for every form and every state of the shared prototype, each own leaf of the result is at the path of an allowed key of the form |
| FormParser.EveryKeyThere | plugins/autonomous-dev-portal/server/lib/form-parser.ts:139-163 | where prototypes play no part and no paths clash, each allowed key is at its path with its coerced last value, or its list |
| FormParser.KeyReadsBack | plugins/autonomous-dev-portal/server/lib/form-parser.ts:48-163 | a form that parses plainly reads back, at an allowed key's dotted path, the value of the last pair with that key: a number or null, true for "true", "on" and "1" alone, or the text, as the field has it; for a list key the values of all its pairs in order |
| FormParser.AllowedIs | plugins/autonomous-dev-portal/server/lib/form-parser.ts:22-61 | the keys a form may set |
| FormParser.NoProtoParse | plugins/autonomous-dev-portal/server/lib/form-parser.ts:139-163 | a form without `__proto__` segments is parsed as if there were no prototypes, leaves the shared one alone and does not throw |
| FormParser.RoundTripsIffNoClash | plugins/autonomous-dev-portal/server/lib/form-parser.ts:139-163 | the form reads back through `getDeep`, and the own leaves are exactly the allowed keys, if and only if no allowed key's path starts with or equals another's and none has a `__proto__` segment; and then the shared prototype is unchanged |
| FormParser.ProtoKeyIsLost | plugins/autonomous-dev-portal/server/lib/form-parser.ts:78-101 | an allowed key without clashes that does not read back |
| FormParser.ProtoPathIsShared | plugins/autonomous-dev-portal/server/lib/form-parser.ts:78-101 | for any two segments, a form after which their path reads in every object, whether or not it is an allowed key's |
| FormParser.NestedSlugsClash | plugins/autonomous-dev-portal/server/lib/form-parser.ts:139-163 | any slug and another that goes on after a dot clash, and do not read back |
| FormParser.NullIsNumeric | plugins/autonomous-dev-portal/server/lib/form-parser.ts:63-75 | only numeric fields are ever set to null |
| FormParser.PrototypeNeverNull | plugins/autonomous-dev-portal/server/lib/form-parser.ts:63-101 | no null is ever assigned to a `__proto__`, so no object loses its prototype |
| Prototypes.SetStaysOffIff | plugins/autonomous-dev-portal/server/lib/form-parser.ts:78-101 | from untouched prototypes, a write leaves the shared one as it was if and only if the first segment `__proto__` of its path, if any, is the last one or is followed by another |
| Prototypes.PushStaysOffIff | plugins/autonomous-dev-portal/server/lib/form-parser.ts:104-133 | likewise an append |
| FormParser.LeavesAloneIffStaysOff | plugins/autonomous-dev-portal/server/lib/form-parser.ts:139-163 | likewise a form of one pair with an allowed key |
| Prototypes.GetDeepIsAt | plugins/autonomous-dev-portal/server/lib/config-validator.ts:72-86 | along own properties `getDeep` finds what is at the path |
| FormParser.FlattenKeys | plugins/autonomous-dev-portal/server/lib/form-parser.ts:171-185 | lists exactly the dotted names of the own leaves, arrays and scalars being leaves |
| FormParser.FlattenedForm | plugins/autonomous-dev-portal/server/lib/form-parser.ts:139-185 | flattening any parsed form lists allowed base keys of the form only, and all of them when the form reads back |
| DeepMerge.DeepMerge | plugins/autonomous-dev-portal/server/lib/config.ts:150-176 | for all objects, own `__proto__` properties included, the result is what merging the entries of the defined sources in order into a new object gives, inherited reads and replaced prototypes included |
| DeepMerge.MergeInto | plugins/autonomous-dev-portal/server/lib/config.ts:156-173 | one source, merged entry by entry in the order of its entries; the recursion ends, as it only goes to less nested objects |
| DeepMerge.TwoSources | plugins/autonomous-dev-portal/server/lib/config.ts:166-169 | two sources merge as the recursive call does |
| DeepMerge.PlainMerge | plugins/autonomous-dev-portal/server/lib/config.ts:150-176 | two sources without an own `__proto__` on any path merge, prototypes and key order notwithstanding, to an object of that kind whose tree of own properties is the right-biased merge of theirs |
| DeepMerge.PlainMergeAll | plugins/autonomous-dev-portal/server/lib/config.ts:150-176 | any number of such sources merge to the nested left merge of the trees of the defined ones |
| DeepMerge.MergesPlainlyIff | plugins/autonomous-dev-portal/server/lib/config.ts:150-176 | an object merges like its tree with every such source on its right, and equally on its left, if and only if none of its paths goes through an own `__proto__` |
| DeepMerge.EmptyIsNeutral | plugins/autonomous-dev-portal/server/lib/config.ts:150-176 | for every parsed object the empty object is neutral on either side if and only if it has no own `__proto__` |
| DeepMerge.ReadsMerged | plugins/autonomous-dev-portal/server/lib/config.ts:150-176 | what any path of two merged sources without `__proto__` reads: the right source's leaf on or above it, else the left where the right has nothing, else the merged objects |
| DeepMerge.AddsNothingIff | plugins/autonomous-dev-portal/server/lib/config.ts:150-176 | merging such an x below y changes nothing if and only if every part of x is in y or replaced by it |
| DeepMerge.GroupsAlikeIff | plugins/autonomous-dev-portal/server/lib/config.ts:150-176 | both groupings of three such sources, and merging them in one go, give the same tree if and only if, wherever a non-object of the middle one lies between two objects, the first object is absorbed by the last |
| DeepMerge.NotAlwaysAssociative | plugins/autonomous-dev-portal/server/lib/config.ts:150-176 | three such sources for which the grouping matters |
| DeepMerge.InheritedObjectsMerge | plugins/autonomous-dev-portal/server/lib/config.ts:158-171 | three sources, the first with an own `__proto__`, on which the groupings differ though nothing is cut off: the inherited object is merged in one grouping and lost in the other |
| DeepMerge.KeyOrderMatters | plugins/autonomous-dev-portal/server/lib/config.ts:157-171 | the same entries in two orders, `__proto__` before or after the key it supplies, merge to different trees |
| ConfirmationTokens.ConfirmationTokenStore.constructor | plugins/autonomous-dev-portal/server/lib/confirmation-token-store.ts:51-57 | no tokens, and the configured lifetime |
| ConfirmationTokens.ConfirmationTokenStore.Issue | plugins/autonomous-dev-portal/server/lib/confirmation-token-store.ts:63-78 | the new token and the clean-up |
| ConfirmationTokens.ConfirmationTokenStore.Consume | plugins/autonomous-dev-portal/server/lib/confirmation-token-store.ts:89-109 | the verdict with its reason, and what becomes of the token |
| ConfirmationTokens.ConfirmationTokenStore.Cleanup | plugins/autonomous-dev-portal/server/lib/confirmation-token-store.ts:112-119 | drops exactly the expired and consumed tokens |
| ConfirmationTokens.OnlyLiveAfterIssue | plugins/autonomous-dev-portal/server/lib/confirmation-token-store.ts:63-78 | after an issue the map holds only live tokens |
| ConfirmationTokens.RunTracks | plugins/autonomous-dev-portal/server/lib/confirmation-token-store.ts:63-119 | after any history the store knows of each token exactly what its issue and its first matching call determine |
| ConfirmationTokens.AcceptsIsOracle | plugins/autonomous-dev-portal/server/lib/confirmation-token-store.ts:89-109 | after any history a call succeeds if and only if it is the first with the issued operator and scope, no later than the expiry |
| ConfirmationTokens.KnownUntilForgotten | plugins/autonomous-dev-portal/server/lib/confirmation-token-store.ts:89-109 | a token is known exactly from its issue until a clean-up finds it used or expired or it is presented late without having been used |
| ConfirmationTokens.ReasonIsTold | plugins/autonomous-dev-portal/server/lib/confirmation-token-store.ts:89-109 | over every proper history each call is told success, or the first reason that holds, as the history says |
| ConfirmationTokens.AtMostOnce | plugins/autonomous-dev-portal/server/lib/confirmation-token-store.ts:80-109 | a token succeeds once at most |
| ConfirmationTokens.NoInterference | plugins/autonomous-dev-portal/server/lib/confirmation-token-store.ts:80-119 | adding or leaving out a failed attempt or a clean-up changes no other call's verdict |
| ActionGates.ResolveRole | plugins/autonomous-dev-portal/server/contrib/rbac.ts:67-81 | the first exact entry, else the last wildcard, else the default, else admin |
| ActionGates.OneRole | plugins/autonomous-dev-portal/server/contrib/rbac.ts:67-91 | by position: the role of the first entry for the actor, without one of the last wildcard, without one the default or admin, and no other role |
| ActionGates.FirstMatchWinsIff | plugins/autonomous-dev-portal/server/contrib/rbac.ts:40-81 | the first matching entry wins if and only if no wildcard of another role comes before the actor's own entry or, without one, the last wildcard has the first one's role |
| ActionGates.LaterEntryWins | plugins/autonomous-dev-portal/server/contrib/rbac.ts:74-79 | two maps on which a later entry wins |
| ActionGates.ContribTokenStore.constructor | plugins/autonomous-dev-portal/server/contrib/action-gate.ts:63-64 | no tokens |
| ActionGates.ContribTokenStore.Issue | plugins/autonomous-dev-portal/server/contrib/action-gate.ts:66-70 | the drawn token holds the action key and the time |
| ActionGates.ContribTokenStore.Consume | plugins/autonomous-dev-portal/server/contrib/action-gate.ts:76-84 | a presented token is gone whatever the verdict |
| ActionGates.Post | plugins/autonomous-dev-portal/server/contrib/action-gate.ts:127-200 | the handler's outcome and the store it leaves |
| ActionGates.RunTracks | plugins/autonomous-dev-portal/server/contrib/action-gate.ts:63-200 | after any history the store holds a token if and only if it was issued and not presented since, with the key and time of its issue |
| ActionGates.OutcomeIsVerdict | plugins/autonomous-dev-portal/server/contrib/action-gate.ts:127-200 | the handler's outcome spelled out from the history alone: who is denied, which phrase is to be confirmed, and that a confirmed action runs if and only if its token was issued for the same action key, at most 60 seconds before, and never presented |
| ActionGates.RunsAreAuthorised | plugins/autonomous-dev-portal/server/contrib/action-gate.ts:127-200 | every handler run is by an actor whose role in the entries is at least the required one, admin if none is given, and unless the action is read-only it presented an unused token that was issued for the same action key at most 60 seconds before |
| ActionGates.DeniedIff | plugins/autonomous-dev-portal/server/contrib/action-gate.ts:127-140 | after any history a request is denied if and only if the role is viewer and the required one is not, or operator and deployer or admin is required, or deployer and admin is required, which is also the default |
| ActionGates.OneRunPerToken | plugins/autonomous-dev-portal/server/contrib/action-gate.ts:76-84 | over all interleavings a token pays for one run at most |
| ActionGates.RunsNeverOutnumberIssues | plugins/autonomous-dev-portal/server/contrib/action-gate.ts:127-200 | per action key, confirmed runs and outstanding tokens together never outnumber the confirmations issued |
| Markdown.Tokenize | plugins/autonomous-dev-portal/server/lib/markdown.ts:87-165 | on every input it ends on, the blocks are those of the line spans the partition theorem is about |
| Markdown.NextBlock | plugins/autonomous-dev-portal/server/lib/markdown.ts:101-161 | one iteration: the block that begins at a line and the line after it |
| Markdown.TerminatesIffClean | plugins/autonomous-dev-portal/server/lib/markdown.ts:87-165 | the outer loop reaches the end if and only if no line outside fenced blocks starts like a header without being one |
| Markdown.PlainTextIsClean | plugins/autonomous-dev-portal/server/lib/markdown.ts:87-165 | lines without bare carriage return, U+2028 and U+2029 are always tokenized |
| Markdown.BareReturnStalls | plugins/autonomous-dev-portal/server/lib/markdown.ts:116-155 | an input on which the loop never ends |
| Markdown.SpansPartition | plugins/autonomous-dev-portal/server/lib/markdown.ts:87-165 | from any line the loop can be at, the spans cover the rest in order up to blank lines, each as long as it can be; a header's line is its hashes, spaces and text, an item's its mark, spaces and text |
| Markdown.TokensPartitionInput | plugins/autonomous-dev-portal/server/lib/markdown.ts:87-165 | the blocks' spans and the skipped blank lines partition the input in order |
| Markdown.LineKinds | plugins/autonomous-dev-portal/server/lib/markdown.ts:87-161 | each kind of line by what it is made of |
| Markdown.LinesSpell | plugins/autonomous-dev-portal/server/lib/markdown.ts:87-88 | an input is its lines and their ends, a carriage return before a line feed counting as part of the end |
| Markdown.EscapeIsCharwise | plugins/autonomous-dev-portal/server/lib/markdown.ts:35-42 | five replacements in a row escape each character once and none twice |
| Markdown.EscapeIsFaithful | plugins/autonomous-dev-portal/server/lib/markdown.ts:35-42 | escaped text shows as the original and holds no character that could open or close markup |
| SpendArtifacts.FindEocd | scripts/ci/aggregate-spend.js:165-173 | the last end-record signature in the search window, or none |
| SpendArtifacts.ExtractZipFirstFile | scripts/ci/aggregate-spend.js:160-198 | the bytes found behind that record, or the error |
| SpendArtifacts.LastSignatureFrom | scripts/ci/aggregate-spend.js:167-172 | the backward search finds the last signature of the window if there is one |
| SpendArtifacts.EndRecordFound | scripts/ci/aggregate-spend.js:165-174 | for every packed archive the window reaches the end record, and the search finds it if and only if no later signature is there |
| SpendArtifacts.EntryRecovered | scripts/ci/aggregate-spend.js:160-198 | unpacking a packed archive gives exactly the stored entry's bytes, whatever the preamble, names, extra fields, data descriptor and comment (sections 4.3.7, 4.3.9, 4.3.12 and 4.3.16 of PKWARE APPNOTE.TXT) |
| SpendArtifacts.ExtractMeans | scripts/ci/aggregate-spend.js:160-198 | whatever buffer is given, what is extracted is, by signature bytes and little-endian fields, the entry of the central directory of the last end record, as it is for method 0 and inflated for method 8 |
| SpendArtifacts.InBatches | scripts/ci/aggregate-spend.js:200-209 | for any positive batch size every item is processed once and results keep their order |
| SpendArtifacts.Filter | scripts/ci/aggregate-spend.js:279-307 | the survivors in order, and a count for each reason to drop |
| SpendArtifacts.SumUp | scripts/ci/aggregate-spend.js:309-328 | totals, in all and by workflow, of the payloads with a finite cost |
| SpendArtifacts.Summarise | scripts/ci/aggregate-spend.js:279-342 | the result of both phases, rounded |
| SpendArtifacts.EveryArtifactCounted | scripts/ci/aggregate-spend.js:279-307 | every artifact survives or is counted under exactly one reason |
| SpendArtifacts.FatesTell | scripts/ci/aggregate-spend.js:279-307 | who survives, and who is dropped for which reason: a failed signature; no payload or time; a time before the cutoff; else another month |
| SpendArtifacts.EverySurvivorCounted | scripts/ci/aggregate-spend.js:309-328 | every survivor counts in the sum or as one more malformed artifact |
| SpendArtifacts.WorkflowsAddUp | scripts/ci/aggregate-spend.js:309-336 | each workflow's total is the sum of the finite costs of its payloads, and together they are the sum of all and the reported total to half a cent |
| SpendArtifacts.PercentageIs | scripts/ci/aggregate-spend.js:336-339 | the share of the budget to a twentieth of a point, zero without a budget |
| Tally.TotalsConserve | scripts/ci/aggregate-spend.js:324-328 | running totals by key conserve the amounts, per key and in all |
| Calendar.NumberOfDate | plugins/autonomous-dev-portal/server/cost/queries.ts:51-53 | every day number is the number of the date shown for it |
| Calendar.DateOfNumber | plugins/autonomous-dev-portal/server/cost/queries.ts:35-53 | a date's day number shows as that date |
| Calendar.NumberOrder | plugins/autonomous-dev-portal/server/cost/queries.ts:35-53 | day numbers order dates as the calendar does and tell them apart |
| Calendar.DayNumbers | plugins/autonomous-dev-portal/server/cost/queries.ts:149-151 | the first of month thirteen is 1 January of the next year |
| Calendar.DayFromYear | plugins/autonomous-dev-portal/server/cost/queries.ts:35-42 | the closed formula of ECMA-262 counts the same days as the leap-year rule |
| Calendar.TextOrder | plugins/autonomous-dev-portal/server/cost/queries.ts:69-70 | comparing ten-character date texts as strings compares the dates |
| Calendar.ParseText | plugins/autonomous-dev-portal/server/cost/queries.ts:35-57 | a date's text reads back as that date |
| Rollups.FillBuckets | plugins/autonomous-dev-portal/server/cost/queries.ts:64-79 | for every key in range the bucket holds the sums of cost and tokens and the set of requests over the entries with that key |
| Rollups.WalkRows | plugins/autonomous-dev-portal/server/cost/queries.ts:81-104 | one row per stop of the cursor, in order, from its bucket or of zeros |
| Rollups.RowsTell | plugins/autonomous-dev-portal/server/cost/queries.ts:81-104 | every row tells its key, the tokens, the cost in whole cents and the number of distinct requests of the entries with that key |
| Rollups.RowsConserve | plugins/autonomous-dev-portal/server/cost/queries.ts:59-104 | rows of distinct keys count each entry under those keys exactly once |
| Rollups.RoundingBound | plugins/autonomous-dev-portal/server/cost/queries.ts:88-93 | rounding moves the sum of the rows by half a cent a row at most |
| Rollups.RequestsBetween | plugins/autonomous-dev-portal/server/cost/queries.ts:78-93 | distinct requests of all keys are at least those of each row and at most those of the rows together |
| CostQueries.AggregateByDay | plugins/autonomous-dev-portal/server/cost/queries.ts:59-104 | one row for each day from the start to the end date, in order |
| CostQueries.AggregateByMonth | plugins/autonomous-dev-portal/server/cost/queries.ts:106-153 | one row for each month from the start to the end month, in order |
| CostQueries.DayKeysAre | plugins/autonomous-dev-portal/server/cost/queries.ts:81-102 | the rows' keys are the texts of the real dates in range, each at its distance from the first day |
| CostQueries.DailyRollup | plugins/autonomous-dev-portal/server/cost/queries.ts:59-104 | for all ledgers, one row a day, each telling its day's entries; together the rows' tokens are the sum over the entries dated in range, their costs the sum to half a cent a row |
| CostQueries.MonthlyRollup | plugins/autonomous-dev-portal/server/cost/queries.ts:106-153 | one row a month, each telling its month's entries |
| CostQueries.FullMonth | plugins/autonomous-dev-portal/server/cost/queries.ts:59-153 | for every ledger a month's row tells the month's entries and exceeds its days' rows by its entries that name no real day, so tokens and unrounded costs agree if and only if those add up to zero; its distinct requests lie between the largest daily count and the sum of the daily counts and theirs |
| CostQueries.MonthIsDaysAndStrays | plugins/autonomous-dev-portal/server/cost/queries.ts:59-153 | cost, tokens and requests of a month are those of its days and of its entries that name no real day |
| CostQueries.NoStrays | plugins/autonomous-dev-portal/server/cost/queries.ts:59-153 | where every entry of the month names a real day nothing is added |
| CostQueries.NoSuchDay | plugins/autonomous-dev-portal/server/cost/queries.ts:69-70 | any timestamp starting with 30 February 2024 names no real day, and its entry counts in full |
| Rounding.HalfCent | plugins/autonomous-dev-portal/server/cost/queries.ts:31-33 | rounding to cents moves an amount by half a cent at most and whole cents not at all |
| Scales.NiceTicks | plugins/autonomous-dev-portal/server/charts/scales.ts:125-153 | the loop ends, its tolerance admits no extra tick, decimal rounding changes no tick, and the ticks are the step's multiples around the range |
| Scales.TicksCover | plugins/autonomous-dev-portal/server/charts/scales.ts:120-153 | ticks are evenly spaced, cover the range and overshoot it by less than a step on either side |
| Scales.StepIs | plugins/autonomous-dev-portal/server/charts/scales.ts:133-143 | the step is one, two, five or ten times the power of ten at or below a tick's share of the range, by the thresholds 1.5, 3.5 and 7.5 |
| Scales.TickCount | plugins/autonomous-dev-portal/server/charts/scales.ts:133-151 | there are at least 0.7 * count + 1 and fewer than 1.75 * count + 3 ticks |
| Scales.TickIsFixed | plugins/autonomous-dev-portal/server/charts/scales.ts:146-150 | rounding a tick to the step's decimals gives the tick |
| Scales.RoundEnds | plugins/autonomous-dev-portal/server/charts/scales.ts:120-124 | an endpoint of the range that is a multiple of the step is the first, or last, tick |
| Scales.LogLies | plugins/autonomous-dev-portal/server/charts/scales.ts:135-136 | a number lies from its power of ten to below the next one |
| Scales.ScaleStays | plugins/autonomous-dev-portal/server/charts/scales.ts:21-42 | whatever the value the scaled one lies between the ends of the range, which the ends of the domain hit |
| Scales.ScaleIsLinear | plugins/autonomous-dev-portal/server/charts/scales.ts:21-42 | between the ends of its domain the scale is linear, beyond them it stays at the nearer end, and an empty domain is shown in the middle |
| Scales.BandScaleX | plugins/autonomous-dev-portal/server/charts/scales.ts:44-67 | every key is placed by its last place in the domain; an empty domain or range yields no bands |
| Scales.BandsApart | plugins/autonomous-dev-portal/server/charts/scales.ts:55-66 | bands lie inside the range, and an earlier band ends before a later one starts |
| Scales.BandsEven | plugins/autonomous-dev-portal/server/charts/scales.ts:55-62 | neighbouring bands have the same gap, and both ends the same margin |
| StackedBars.RenderStackedBars | plugins/autonomous-dev-portal/server/charts/stacked_bar_chart.ts:67-169 | one bar per series: the rectangles the geometry theorems are about |
| StackedBars.RenderBar | plugins/autonomous-dev-portal/server/charts/stacked_bar_chart.ts:147-168 | one rectangle per segment, on top of what has accumulated |
| StackedBars.SetUpY | plugins/autonomous-dev-portal/server/charts/stacked_bar_chart.ts:68-75 | the vertical scale from the totals and the ticks |
| StackedBars.SetUpX | plugins/autonomous-dev-portal/server/charts/stacked_bar_chart.ts:76-80 | the horizontal scale from the dates |
| StackedBars.BarGeometry | plugins/autonomous-dev-portal/server/charts/stacked_bar_chart.ts:144-169 | with non-negative values the clamp never bites: segments stand on the baseline and on one another, are as high as their values, add up to the bar's total and stay inside the plot |
| StackedBars.TopOfPlot | plugins/autonomous-dev-portal/server/charts/stacked_bar_chart.ts:68-75 | the top of the plot is the first tick not below 110 per cent of the largest total, or 1 where there is none, and a pixel's worth of value follows from it |
| StackedBars.NeverNegative | plugins/autonomous-dev-portal/server/charts/stacked_bar_chart.ts:144-169 | whatever the values, no height is negative, and a value below zero has none |
| StackedBars.BarsApart | plugins/autonomous-dev-portal/server/charts/stacked_bar_chart.ts:76-80 | bars lie inside the plot, bars of different dates do not overlap and bars of one date coincide |
| StackedBars.TicksInside | plugins/autonomous-dev-portal/server/charts/stacked_bar_chart.ts:102-123 | gridlines and tick labels stay inside the plot |

## Left out

Weaker than the source, on purpose:

- LogPipelines.LogPipeline.Handle: a handler call is one step, although line 92 does not await it and two calls could overlap; a look at the file sees one state of it.
- LogPipelines.TailRefinement: works on bytes, although each chunk is decoded as UTF-8 on its own and a character cut by a chunk is lost; files have distinct, non-zero inodes.
- HeartbeatPipelines.HeartbeatRefinement: works on bytes and on one call at a time in the same way.
- FormParser.ConfigTree.Descend: cursors are places in two trees, the object under construction and what was added to `Object.prototype`, rather than references; reading a built-in function counts as reading nothing.
- FormParser.FlattenKeys: states which names are listed, not in which order or how often, and takes `__proto__` for an object's prototype, which it is in a parsed form, not for an own property.
- DeepMerge.DeepMerge: objects are values, so that inputs stay unchanged needs no proof; `Object.prototype` is taken to have no enumerable properties.
- DeepMerge.GroupsAlikeIff: for sources without an own `__proto__` on any path, which `DeepMerge.MergesPlainlyIff` singles out as those that merge like trees; for others `DeepMerge.InheritedObjectsMerge` shows that its condition does not decide.
- AggregationCaches.AggregationCache.GetKey: a cached `null` cannot be told from a miss by the caller of the source; here the hit shows.
- AggregationCaches.AggregationCache.EvictForMemory: a fifth is exact, while 0.2 as a double can round one entry further.
- AggregationCaches.AggregationCache.InvalidateMatching: a pattern is a fixed test of the key, so a regular expression that keeps state between calls is not covered.
- AggregationCaches.NewKeySurvivesIff: of new keys; a key that is written over keeps its place in the map, so that others used at the same instant can outlast it.
- Cidr.ParseCIDR: takes the address text and an integer prefix; the split at the slash and the number text are not modelled.
- CostQueries.AggregateByDay: range ends are texts of real dates of the years 100 to 9999; what `Date.UTC` makes of other texts is not modelled.
- CostQueries.AggregateByMonth: the same for months.
- Markdown.Tokenize: only on inputs it ends on, which are the ones `Markdown.TerminatesIffClean` names.
- SpendArtifacts.ExtractZipFirstFile: inflating is an uninterpreted function.
- Scales.BandScaleX: a padding that makes the divisor zero is excluded.
- StackedBars.BarGeometry: coordinates before they are rounded to a tenth of a pixel.

Not modelled:

- `canonicalize` on `undefined` and functions, which JSON text cannot hold, and its standard-input wrapper.
- JSON parsing, schema validation and redaction of a log line, heartbeat or cost file: one verdict per line or file.
- Watchers, timers, listeners, file handles, HTTP requests and replies, audit and log records.
- `getStats`, `has` and `size`, which only read counters.
- `Number(value.trim())` in form fields is a function of the text.
- Inline markdown and `renderMarkdown`: the tags they emit need not nest.
- Artifact listing and download, HMAC checks, `readCostUsd` and month names: they decide what an artifact turns out to be before it is filtered.
- `aggregateByRepo`, `aggregateByPhase`, `topNExpensive`, `sevenDayProjection`: the same buckets with a division or a sort on top.
- `niceTicks` on infinite bounds, floating-point creep, and the limit of 100 decimals of `toFixed`.
- SVG text, legends, colours, labels, `dateScaleX` and the formatters.
- Deploy backends, command-line dispatchers, pages and browser scripts.
