# Verified model of the Nova Context safety engines

This project models, in Dafny, the small engines of the Nova Context monorepo whose guarantees range
over whole runs, and proves those guarantees for every input, every run and every reachable state:

- `LiveContext` - the live context buffer: in-place eviction under a time window, two count caps and a
  byte budget, and its exact closed form over the whole accepted history.
- `RateLimit` - the in-memory fixed-window limiter and the Redis limiter with its local fallback.
- `ValidationGate` - the sequential check runner with cascading skips, and the verdict over its report.
- `Luhn` - the card-number check (ISO/IEC 7812-1, Annex B).
- `ObjectStores`, `Manifest`, `SealedBackup`, `MediaBackup` - backup protocols over object stores that may
  throw, corrupt writes, or be left behind at any step by a process that dies.
- `KeyRotation` - the secret box layout, keyring reads and the in-place re-encryption of media.
- `MediaLifecycle`, `MediaCleanup`, `CleanupTiming` - who owns a media blob through captures, deletions,
  tombstones and cleanup, and the timing argument that keeps a capture in flight safe.
- `ActionExecution` - approval, queue and worker of one external action, with retries and crashes.
- `PayloadTrees`, `MediaService`, `CapturePipeline` - the walkers over JSON payloads, the encrypted media
  store with its rows, and the path from a captured payload to what is persisted.
- `VisualRedaction`, `SafeText`, `ImageMasking` - from OCR words to lines, boxes, indexed text and pixels.
- `MaskedCapture` - capture and masking together: what a stored image shows.
- `MediaOwnership` - the media service and the owners of blobs together: what a batch that stops leaves behind.

Code that changes state step by step is modelled as classes, methods and loops proved against
specification functions and predicates; the theorems are lemmas about those. `Common` holds an option
type, two sequence helpers and the whitespace test.

How faults are modelled. An object store or table is a map or a set. Every call that leaves the process
may throw, and a call that throws may or may not have taken effect; a put may store something else than
it was given. A ghost `trail` records every state a store has been in, so a statement about all states of
the trail is a statement about a process that dies after any step. A store, table or attempt can also be
declared reliable, so that the contracts say both that nothing goes wrong under faults and that the
operation succeeds without them. SHA-256, HMAC-SHA-256 (RFC 2104), AES-256-GCM (NIST SP 800-38D), JSON
text and OCR are function values; what is needed of them (64 hex digits, what was sealed opens, what was
encoded decodes, no two of the byte strings that occur share a digest) is a named predicate that the
theorems require, and `ObjectStores.PrimitivesExist` shows that the digest hypotheses can be met.

## Main results

- The buffer after any run has a closed form over the whole history, and is one eviction of it exactly when
  no live entry was cut for bytes that are no longer needed (`LiveContext.ClosedForm`,
  `LiveContext.RunIsOneEvictionIff`). What is read out of it are its newest frames and snippets, each at its
  place (`LiveContext.ContentsNewestLast`).
- The exact answers of both limiters over whole runs, sliding-window bounds, that the first is reached, and
  that a full shared counter never opens again exactly when it has no expiry (`RateLimit.MemoryAnswerIsRank`,
  `RateLimit.RedisAnswerIsRank`, `RateLimit.HealthyWindow`, `RateLimit.MemorySlidingBound`,
  `RateLimit.MemoryBoundIsReached`, `RateLimit.RedisSlidingBound`, `RateLimit.NeverOpensIff`).
- What the gate reports of every check, and its verdict, in terms of the checks and the world alone
  (`ValidationGate.ReportMeans`, `ValidationGate.VerdictMeans`).
- Appending checks never improves a verdict, prepending one improves it under an exact condition, cascade
  provenance is sound under one, and exit 0 is sound exactly without waived checks
  (`ValidationGate.VerdictNeverImproves`, `ValidationGate.PrependingImprovesIff`,
  `ValidationGate.CascadesAreSoundIff`, `ValidationGate.NoVacuousPass`).
- At every step of a backup, and in what it leaves behind, a commit marker vouches for a complete set and
  passes verification; doing it again over a committed set keeps that; and fetching or restoring inverts
  publishing or backing up (`SealedBackup.Publish`, `SealedBackup.PublishAgain`, `SealedBackup.PublishThenFetch`,
  `MediaBackup.Backup`, `MediaBackup.BackupAgain`, `MediaBackup.BackupVerifyRestore`).
- What verification of a set vouches for, spelled out, and that a document altered under its old mac verifies
  exactly if HMAC does not tell the two texts apart (`SealedBackup.RemoteOkMeans`,
  `SealedBackup.AlteredMarkerIff`, `MediaBackup.BackupVerifiesMeans`, `Manifest.BackupOkMeans`).
- Rotation keeps every plaintext at every step, afterwards the new key alone suffices, and a second run
  writes nothing (`KeyRotation.RotateMedia`, `KeyRotation.NewKeyAloneSuffices`, `KeyRotation.RotateTwice`).
- Blob ownership is conserved by every deletion wherever it stops, and cleanup removes nothing a capture in
  flight will refer to, exactly under its timing condition (`MediaLifecycle.MediaStorage.DeleteAccount`,
  `MediaCleanup.RunMediaCleanup`, `CleanupTiming.SafeIff`).
- Nothing leaves before an approval, every upload is drawn from the approved list, and external effects are
  duplicated only as often as attempts did not finish (`ActionExecution.AnyRun`).
- Wherever storing a batch of images stops, only the blobs of the image it was at have no owner, and only the
  sweep removes them (`MediaOwnership.OnlyTheLastIsOrphaned`, `MediaOwnership.OnlyTheSweepRemoves`).
- Stored media are served back byte for byte, to their owner only, through key rotations, and storing more
  changes no other read (`MediaService.StoredIsServed`, `MediaService.OthersReadTheSame`).
- The persisted payload is the captured one without its images, and every stored blob is a certified
  redaction, whatever the interleaving (`CapturePipeline.Capture`); the tree walkers agree
  (`PayloadTrees.SanitizerLaws`).
- Masking is complete and exact to the pixel, a stored image shows no sensitive word, and the indexed text
  does not depend on what masked words say (`ImageMasking.MaskingIsComplete`, `ImageMasking.MaskingIsExact`,
  `MaskedCapture.StoredAreSafeCopies`, `MaskedCapture.SafeCopyShows`, `SafeText.MaskedWordsDoNotLeak`), and
  the same holds of every live frame handed on (`MaskedCapture.RedactLiveFrames`).
- The Luhn check catches every single-digit error and every swap but 0 with 9 (`Luhn.SwapIsCaught`).

## Where the code differs from what it says of itself

The model follows the code. Each point is a lemma or the contract of a method, with the exact condition.

- `slice(-0)` keeps everything, so the Q&A cap holds on every run exactly when it is at least 1
  (`LiveContext.QaCappedIffPositive`), and eviction only happens on accepted adds.
- A byte cut is permanent, so evicting step by step is not evicting the history once
  (`LiveContext.ByteCutIsPermanent`); the two agree exactly when no live entry lies between the cut the
  history needs now and the highest it ever needed (`LiveContext.RunIsOneEvictionIff`).
- A full Redis counter never opens again while Redis answers exactly when it has no expiry, and a single
  lost PEXPIRE leads there (`RateLimit.NeverOpensIff`, `RateLimit.LostExpiryIsReached`).
- A required, unprotected P3 check can fail under exit 0; without such checks exit 0 is sound, and with
  one it is not (`ValidationGate.NoVacuousPass`).
- Every cascade skip that the runner emits is judged valid exactly when each required check that a
  non-exempt one follows has a non-empty id that no earlier check bears (`ValidationGate.CascadesAreSoundIff`).
- A check put in front improves a verdict exactly when the verdict was BLOCKED, the check is a waived failure
  with a non-empty id, and every blocking check is a cascade skip that blames that id
  (`ValidationGate.PrependingImprovesIff`).
- An artifact that bears the marker's name, or a referenced object named like the inventory, defeats
  "written last" (`SealedBackup.UploadsAreSafeIffNoCollision`, `MediaBackup.CommitKeepsSetIff`).
- Re-running a backup is not idempotent on every store: it puts over the artifacts of a committed set, and
  what it leaves verifies exactly when each put stored the recorded size and digest
  (`SealedBackup.RewriteIsOkIff`, `MediaBackup.RewriteIsOkIff`), as it does when the store corrupts nothing and
  the files or source objects are still the recorded ones (`SealedBackup.PublishAgain`,
  `MediaBackup.BackupAgain`).
- Draining the delete queue does not consult the table, so it spares every referenced blob exactly when none
  is also tombstoned (`MediaCleanup.DrainSparesReferencedIff`). A deletion whose transaction fails after a
  tombstone leads there, for every stored blob of every row (`MediaCleanup.FailedCommitThenDrain`,
  `MediaLifecycle.OnlyTombstonesEndanger`, `MediaLifecycle.CommitDecides`). The orphan loop never removes a
  referenced blob.
- A null modification time bypasses the age guard (`MediaCleanup.UnknownAgeIsNeverRecent`,
  `CleanupTiming.SafeIff`).
- Deleting a moment while the media pipeline is unavailable removes the rows and tombstones nothing
  (`MediaLifecycle.MediaStorage.DeleteMoment` states exactly when that leaves an orphan); deleting an
  account in the same situation tombstones every key.
- The page id is stored by the statement that completes the action, so a row that was proposed without one
  carries one exactly when it is completed, and the worker's recovery branch is never taken
  (`ActionExecution.AnyRun`).
- The legacy sanitizer returns a payload that is itself an image string untouched; what it returns is clean
  exactly for every other payload, arrays included (`PayloadTrees.SanitizedIsCleanIff`).

## Model

| member | source | states |
|---|---|---|
| `LiveContext.ClosedForm` | packages/context-engine/src/live-buffer.ts:64-109 | for nondecreasing times, the buffer after any run is exactly the accepted entries that are in the newest entry's window, under their kind's cap counted from the newest, and at or after the sticky byte cut |
| `LiveContext.StickyCutBounds` | packages/context-engine/src/live-buffer.ts:105-108 | the sticky cut is at least the least byte cut of every prefix of the run |
| `LiveContext.StickyCutIsACut` | packages/context-engine/src/live-buffer.ts:105-108 | and it is attained: it is the least byte cut of some prefix |
| `LiveContext.CutFrom` | packages/context-engine/src/live-buffer.ts:105-108 | the least index from which the capped history fits the byte budget, none before it doing so |
| `LiveContext.CapsCommute` | packages/context-engine/src/live-buffer.ts:91-104 | dropping oldest frames then oldest texts keeps an entry exactly when fewer than its cap of its own kind follow it |
| `LiveContext.CapStep` | packages/context-engine/src/live-buffer.ts:88-104 | windowing and capping what one step kept plus the new entry is windowing and capping the whole history again |
| `LiveContext.BudgetIsCut` | packages/context-engine/src/live-buffer.ts:105-108 | shifting to the budget from an earlier cut moves the cut up to the least one of the whole history, never down |
| `LiveContext.ByteCutIsPermanent` | packages/context-engine/src/live-buffer.ts:105-108 | an entry pushed out by bytes stays out after the entry that pushed it out is itself evicted |
| `LiveContext.OneEviction` | packages/context-engine/src/live-buffer.ts:87-109 | one eviction of the whole history keeps exactly its live entries at or after its own least byte cut |
| `LiveContext.RunIsOneEvictionIff` | packages/context-engine/src/live-buffer.ts:87-109 | running over a history with nondecreasing times leaves what evicting it once leaves if and only if no live entry lies between its least byte cut and its sticky byte cut |
| `LiveContext.RunWithinLimits` | packages/context-engine/src/live-buffer.ts:87-109 | after every accepted add the frame cap, the text cap, the byte budget and the window hold, whatever the clock does |
| `LiveContext.CapsHold` | packages/context-engine/src/live-buffer.ts:91-104 | counted by their positions, no more frames and no more snippets are kept than their own limits |
| `LiveContext.CountMeans` | packages/context-engine/src/live-buffer.ts:91-104 | what the caps count are the positions that hold an entry of the kind |
| `LiveContext.NewestSurvives` | packages/context-engine/src/live-buffer.ts:64-109 | the entry just added is kept, as the newest, exactly when it fits the byte budget and its cap is at least 1 |
| `LiveContext.RunOrderedAndDeduplicated` | packages/context-engine/src/live-buffer.ts:70-78 | entries stay chronological and no two neighbouring text snippets are equal |
| `LiveContext.QaKeepsNewest` | packages/context-engine/src/live-buffer.ts:80-85 | the Q&A list is the most recent exchanges of the whole session |
| `LiveContext.QaCappedIffPositive` | packages/context-engine/src/live-buffer.ts:82-84 | the Q&A cap holds on every run if and only if the configured cap is at least 1 |
| `LiveContext.DropOldest` | packages/context-engine/src/live-buffer.ts:93-97 | splicing out the oldest entry of an over-full kind leaves the capped result unchanged and removes just that entry |
| `LiveContext.LiveBuffer.constructor` | packages/context-engine/src/live-buffer.ts:47-53 | an empty buffer is the run of the empty history |
| `LiveContext.LiveBuffer.AddFrame` | packages/context-engine/src/live-buffer.ts:64-68 | an oversized frame changes nothing; any other is appended to the accepted history, whose run the buffer is |
| `LiveContext.LiveBuffer.AddText` | packages/context-engine/src/live-buffer.ts:70-78 | blank text and a repeat of the latest snippet change nothing; any other is appended, trimmed |
| `LiveContext.TrimMeans` | packages/context-engine/src/live-buffer.ts:70-72 | trimming removes whitespace from both ends, all of it and nothing else |
| `LiveContext.LiveBuffer.AddQa` | packages/context-engine/src/live-buffer.ts:80-85 | the exchange is appended to the asked history; entries are untouched |
| `LiveContext.LiveBuffer.EvictEntries` | packages/context-engine/src/live-buffer.ts:87-109 | the four in-place passes leave what the eviction function says |
| `LiveContext.LiveBuffer.EvictOldest` | packages/context-engine/src/live-buffer.ts:91-104 | the find-and-splice loop leaves the newest entries of the kind up to its cap and every other entry |
| `LiveContext.LiveBuffer.RemainingMs` | packages/context-engine/src/live-buffer.ts:55-62 | never negative, zero exactly when the session cap is reached, and otherwise the time from now to the start plus the cap |
| `LiveContext.LiveBuffer.RecentFrames` | packages/context-engine/src/live-buffer.ts:119-125 | as many URLs as the limit allows, the limit 0 allowing all; and each stored frame with fewer stored frames after it than that is listed, as many places from the end as frames follow it |
| `LiveContext.LiveBuffer.RecentTextSnippets` | packages/context-engine/src/live-buffer.ts:127-132 | the same for text snippets: the newest, in the order they were stored, the newest last |
| `LiveContext.LiveBuffer.SaveSegment` | packages/context-engine/src/live-buffer.ts:138-151 | the URL of the stored frame that no stored frame follows, none exactly if no frame is stored; the three newest snippets, each at its place, and exchanges or all if fewer; and the segment's times |
| `LiveContext.ContentsAt` | packages/context-engine/src/live-buffer.ts:119-132 | the value listed at the number of entries of a kind before entry i is that entry's URL or text, for every entry of the kind |
| `LiveContext.ContentsNewestLast` | packages/context-engine/src/live-buffer.ts:119-132 | whatever is cut off its front, the list holds the newest entries of the kind in order, stated by the positions of the entries alone |
| `LiveContext.SavedFrameIsNewest` | packages/context-engine/src/live-buffer.ts:140-151 | the saved frame is the stored frame that no stored frame follows |
| `LiveContext.LiveBuffer.Clear` | packages/context-engine/src/live-buffer.ts:153-158 | nothing survives, and the history starts over |
| `RateLimit.MemoryRateLimiter.AllowSync` | services/api/src/auth/rate-limit.ts:54-64 | one attempt changes the window map and answers as the step function of the key's window |
| `RateLimit.RedisServer.Incr` | services/api/src/auth/rate-limit.ts:103-103 | INCR on a live or expired counter, which may be lost or unacknowledged |
| `RateLimit.RedisServer.PExpire` | services/api/src/auth/rate-limit.ts:104-106 | PEXPIRE, which may be lost or unacknowledged |
| `RateLimit.RedisRateLimiter.Allow` | services/api/src/auth/rate-limit.ts:100-126 | Redis answers when both calls return, as the step of the shared counters whose exact answer over runs is below; otherwise the attempt counts in the local window and the degraded flag and error time are set |
| `RateLimit.MemoryAnswerIsRank` | services/api/src/auth/rate-limit.ts:55-64 | the exact answer over any run: an attempt is the first of a window if the key has none that opened less than a window's length ago, otherwise the next of it, and is let through exactly if it is the first or its rank is at most max |
| `RateLimit.RedisAnswerIsRank` | services/api/src/auth/rate-limit.ts:100-111 | the exact answer of the shared counter over any run and fault: an attempt whose calls return is let through if and only if its rank in the counter's life is at most max, and they return exactly unless INCR fails, or it is the first of a life and PEXPIRE fails |
| `RateLimit.OpenerExpiry` | services/api/src/auth/rate-limit.ts:103-106 | a counter's life ends exactly when the PEXPIRE of the attempt that opened it took effect and its window has passed since |
| `RateLimit.HealthyWindow` | services/api/src/auth/rate-limit.ts:100-111 | after any history, of the attempts on a key within one window of the first after its counter expired, each is let through exactly if it is among the first max, whatever happens on other keys |
| `RateLimit.FirstMaxAreLetThrough` | services/api/src/auth/rate-limit.ts:100-111 | for every key and limit, the n-th of n healthy attempts is let through exactly if n is at most max |
| `RateLimit.AllowedMeans` | services/api/src/auth/rate-limit.ts:100-125 | an attempt is answered by Redis where its calls return, and otherwise as the in-memory limiter of its own instance answers to what was left to it |
| `RateLimit.TotalAllowedMeans` | services/api/src/auth/rate-limit.ts:100-126 | the total that the bounds speak of is the number of the attempts let through in the interval |
| `RateLimit.MemoryAllowedMeans` | services/api/src/auth/rate-limit.ts:55-64 | and so is the one of a single in-memory limiter |
| `RateLimit.TwoWindowsMinusOne` | services/api/src/auth/rate-limit.ts:55-64 | any regular sequence of window attempts lets at most 2 max - 1 through in a half-open interval of one window's length |
| `RateLimit.MemoryMarksRegular` | services/api/src/auth/rate-limit.ts:55-64 | every run of the limiter is such a sequence for every key, with exact counts |
| `RateLimit.MemorySlidingBound` | services/api/src/auth/rate-limit.ts:55-64 | for any run with a nondecreasing clock a key gets at most 2 max - 1 attempts in any window length |
| `RateLimit.MemoryBoundIsReached` | services/api/src/auth/rate-limit.ts:55-64 | for every max at least 1 and window of at least 2 ms some run reaches the bound |
| `RateLimit.RedisMarksRegular` | services/api/src/auth/rate-limit.ts:100-111 | the shared counter's attempts are regular too, even when expiries are lost |
| `RateLimit.AllowedSplits` | services/api/src/auth/rate-limit.ts:100-126 | every attempt let through was let through by Redis or by exactly one instance's fallback |
| `RateLimit.RedisSlidingBound` | services/api/src/auth/rate-limit.ts:100-126 | n instances sharing Redis let at most (n + 1)(2 max - 1) attempts through in any window length under any pattern of outages |
| `RateLimit.SingleInstanceBound` | services/api/src/auth/rate-limit.ts:100-126 | one instance: at most 4 max - 2, PEXPIRE failing after INCR included |
| `RateLimit.LostExpiryFailsClosed` | services/api/src/auth/rate-limit.ts:103-111 | a full counter that lost its expiry never lets anyone through again via Redis |
| `RateLimit.NeverOpensIff` | services/api/src/auth/rate-limit.ts:103-111 | no attempt on a key with a full counter is ever again let through by Redis, in any continuation, if and only if the counter has no expiry |
| `RateLimit.LostExpiryIsReached` | services/api/src/auth/rate-limit.ts:103-106 | for every key and limit, a first attempt whose PEXPIRE is lost and max - 1 healthy ones reach such a counter |
| `ValidationGate.FirstPositions` | tools/validation-gate/src/outcome.ts:34-37 | the position map holds the first occurrence of every id |
| `ValidationGate.ComputeOutcome` | tools/validation-gate/src/outcome.ts:26-80 | the three flags name the maximum of the per-check contributions under FAIL over BLOCKED over CONDITIONAL_PASS over PASS |
| `ValidationGate.VerdictMeans` | tools/validation-gate/src/outcome.ts:26-80 | FAIL exactly if some failure is P0, P1, required P2 or in a protected category; BLOCKED exactly if none is and a required check blocked or was skipped without naming an earlier required failed or blocked check; PASS exactly if neither and all passed or were skipped |
| `ValidationGate.ContributionMeans` | tools/validation-gate/src/outcome.ts:39-78 | the same for each check alone, required or not |
| `ValidationGate.ExitCodeFor` | tools/validation-gate/src/outcome.ts:82-96 | exit 0 exactly for the two passing verdicts; exit 2 exactly for a blocked operator mode |
| `ValidationGate.RunCheck` | tools/validation-gate/src/runner.ts:56-144 | one iteration: skipped exactly when a cause stands and the check is neither pure nor always run; executed, a command passes exactly if it neither threw nor timed out and exited with 0, or with another code where a failure is expected; a required failed or blocked result becomes the new cause |
| `ValidationGate.ContributionStable` | tools/validation-gate/src/outcome.ts:59-67 | what a check contributes does not depend on what comes after it |
| `ValidationGate.VerdictNeverImproves` | tools/validation-gate/src/outcome.ts:31-80 | appending any checks to any report cannot improve its verdict |
| `ValidationGate.PrependingCanImprove` | tools/validation-gate/src/outcome.ts:44-46 | for every report that is one invalid required cascade skip, putting a waived failure with the blamed id in front turns BLOCKED into CONDITIONAL_PASS |
| `ValidationGate.PrependingImprovesIff` | tools/validation-gate/src/outcome.ts:31-80 | putting a check in front improves the verdict if and only if it was BLOCKED, the check is a required unprotected P3 failure with a non-empty id, and every blocking check is a required cascade skip that blames that id |
| `ValidationGate.PrependedCascade` | tools/validation-gate/src/outcome.ts:59-72 | a check in front changes the validity of exactly those cascade skips that blame its id |
| `ValidationGate.WorstIsUnique` | tools/validation-gate/src/outcome.ts:74-80 | a report determines its verdict |
| `ValidationGate.RunGate` | tools/validation-gate/src/runner.ts:33-148 | every check that is pure, always runs or follows no required failed or blocked check is executed, in order, and its result is what the world made of it; every other one is a cascade skip that blames the latest such check; and the verdict is that report's |
| `ValidationGate.ReportMeans` | tools/validation-gate/src/runner.ts:50-148 | the report, check by check, in terms of the checks and the world: a command passed if and only if it neither threw nor timed out and its exit code was 0, or under an expected failure present and not 0; a function reports its own status; a check that throws or has no body failed |
| `ValidationGate.LatestCauseAt` | tools/validation-gate/src/runner.ts:56-75 | the blamed check is the latest required one that failed or blocked |
| `ValidationGate.RunsExecutes` | tools/validation-gate/src/runner.ts:56-67 | a check is executed if it is pure or always runs or no earlier required check failed or blocked, and otherwise recorded as a cascade skip |
| `ValidationGate.ReportAt` | tools/validation-gate/src/runner.ts:50-145 | the i-th result as a function of the latest cause before it |
| `ValidationGate.EmittedCascadesAreValid` | tools/validation-gate/src/runner.ts:56-67 | with unique ids, a cascade skip the runner emits is judged valid exactly when the blamed id is not empty |
| `ValidationGate.CascadesAreSoundIff` | tools/validation-gate/src/runner.ts:50-148 | for checks that have a body, every cascade skip emitted in any world is judged valid if and only if each required check that a non-exempt one follows has a non-empty id that no earlier check bears |
| `ValidationGate.PassingVerdict` | tools/validation-gate/src/outcome.ts:39-80 | under a passing verdict all required checks held exactly when no required, unprotected P3 check failed |
| `ValidationGate.NoVacuousPass` | tools/validation-gate/src/runner.ts:50-148 | for any well-formed list of checks, exit 0 means every required check ran and passed or degraded, over all behaviours, if and only if no required check is an unprotected P3 one |
| `Luhn.LuhnValid` | packages/context-engine/src/redaction.ts:32-45 | the right-to-left loop computes validity of the doubled-digit sum |
| `Luhn.TermMeans` | packages/context-engine/src/redaction.ts:35-42 | a doubled digit counts with the sum of the two digits of its double |
| `Luhn.SumInPairs` | packages/context-engine/src/redaction.ts:32-45 | every second digit from the right is doubled, starting with the last but one |
| `Luhn.SumUpdate` | packages/context-engine/src/redaction.ts:32-45 | replacing one digit shifts the sum by the difference of its terms |
| `Luhn.OneDigitChangeIsCaught` | packages/context-engine/src/redaction.ts:32-45 | changing one digit of a valid string of any length makes it invalid |
| `Luhn.SwapIsCaught` | packages/context-engine/src/redaction.ts:32-45 | swapping two neighbours keeps it valid exactly when they are equal or a 0 and a 9 |
| `Luhn.CheckDigitIsUnique` | packages/context-engine/src/redaction.ts:32-45 | every digit string has exactly one check digit |
| `ObjectStores.SameDigestIsEquality` | services/api/src/backup/manifest.ts:124-128 | comparing decoded hex digests is equality on well-formed ones |
| `ObjectStores.PrimitivesExist` | services/api/src/backup/manifest.ts:124-128 | for any byte strings, up to the number of 64-digit digests, there are digests that tell them apart, so the hypotheses of the backup theorems can be met |
| `Manifest.VerifyBackup` | services/api/src/backup/manifest.ts:142-201 | the result is ok exactly for a directory whose manifest is well shaped and authentic and whose every artifact has its size and digest and opens; the shape and mac verdicts are exact, and every artifact is reported as it is |
| `Manifest.CheckOf` | services/api/src/backup/manifest.ts:174-198 | an artifact is good exactly when its report shows hash ok, size ok and no failed decryption; each of the three is reported exactly in its case |
| `Manifest.BackupOkMeans` | services/api/src/backup/manifest.ts:109-201 | verification spelled out: the mac is the HMAC of the canonical text of the manifest's own body, its fields are the expected ones, it lists a database dump, and every artifact is there with its size and digest and opens |
| `Manifest.AlteredManifestIff` | services/api/src/backup/manifest.ts:124-172 | a manifest that keeps its mac under another body verifies exactly if everything else holds of that body and HMAC does not tell the two canonical texts apart |
| `SealedBackup.StampsAreSeparate` | services/api/src/backup/sealed-backup-s3.ts:59-70 | a safe stamp cannot name a key of another stamp |
| `SealedBackup.SafeStampMeans` | services/api/src/backup/sealed-backup-s3.ts:66-70 | a stamp is accepted exactly if it is not empty, no dot or pair of dots, and all digits, letters, dots, underscores and hyphens |
| `SealedBackup.LocalArtifacts` | services/api/src/backup/sealed-backup-s3.ts:108-138 | the set is every sealed artifact, the manifest, and the media inventory when present, as they are on disk |
| `SealedBackup.LocalSetMeans` | services/api/src/backup/sealed-backup-s3.ts:108-138 | the published set spelled out: every artifact of the manifest, the manifest, the media inventory exactly if present, nothing else, each with its size and digest on disk |
| `SealedBackup.PublishedMeans` | services/api/src/backup/sealed-backup-s3.ts:182-200 | the published marker lists that set, and its mac is the HMAC of the canonical text of its own body |
| `SealedBackup.PublishedDigests` | services/api/src/backup/sealed-backup-s3.ts:184-199 | the digests that the marker repeats are those of the manifest and of the media inventory, if there is one |
| `SealedBackup.FirstOfRole` | services/api/src/backup/sealed-backup-s3.ts:184-185 | the first entry of the role, none exactly when there is none |
| `SealedBackup.UploadAll` | services/api/src/backup/sealed-backup-s3.ts:206-220 | when every put and re-read succeeded the whole set is stored intact, and the marker key was never written; on a reliable store it succeeds, passing through exactly the states of the upload sequence |
| `SealedBackup.UploadingStep` | services/api/src/backup/sealed-backup-s3.ts:209-219 | one more upload keeps everything true of the uploads before it, matched or not |
| `SealedBackup.Commit` | services/api/src/backup/sealed-backup-s3.ts:222-225 | the marker write touches nothing else, so the set stays intact; on a reliable store the marker is there as encoded |
| `SealedBackup.Publish` | services/api/src/backup/sealed-backup-s3.ts:148-226 | at every step of any publish, with writes corrupted and calls throwing, and in the store it leaves behind: a marker that is there came after the whole intact set, passes remote verification if it is there as written, and on a store that corrupts nothing always is; nothing is written unless the local set verified, whatever the result; a dry run writes nothing; on a reliable store every locally verified set is published |
| `SealedBackup.HonestStates` | services/api/src/backup/sealed-backup-s3.ts:222-311 | in every state of a trail, an uncorrupted marker over the intact set is one that remote verification accepts |
| `SealedBackup.PublishAgain` | services/api/src/backup/sealed-backup-s3.ts:148-226 | over a committed set, wherever it stops, the remote set verifies in every state and in what is left behind, if the store corrupts nothing and the files of the listed names are still the recorded ones |
| `SealedBackup.RewriteIsOkIff` | services/api/src/backup/sealed-backup-s3.ts:209-219 | a put over an artifact of a committed set leaves a set that verifies if and only if what is stored has the recorded size and digest |
| `SealedBackup.VerifyRemote` | services/api/src/backup/sealed-backup-s3.ts:258-311 | ok exactly for a committed, authenticated, intact remote set, with expected equal to verified, and then the stored mac is the HMAC of the canonical text of the stored body; a verdict is always reached on a reliable store |
| `SealedBackup.RemoteOkMeans` | services/api/src/backup/sealed-backup-s3.ts:228-311 | verification spelled out: the stored mac is the HMAC of the canonical text of the stored body, its fields are the expected ones, a database dump and the sealed manifest with the recorded digest are listed, and every listed artifact is stored with its size and digest |
| `SealedBackup.AlteredMarkerIff` | services/api/src/backup/sealed-backup-s3.ts:287-311 | a committed set whose marker keeps its mac under another well-shaped body that lists what is stored verifies if and only if HMAC does not tell the two canonical texts apart |
| `SealedBackup.OkIsAuthentic` | services/api/src/backup/sealed-backup-s3.ts:287-290 | what verifies is authentic: the stored mac is the HMAC of the canonical text of the stored body |
| `SealedBackup.CheckAll` | services/api/src/backup/sealed-backup-s3.ts:296-309 | verified, missing and altered partition the entries; nothing is missing or altered exactly when the set is intact, and what is reported missing is absent |
| `SealedBackup.BuiltMarkerIsValid` | services/api/src/backup/sealed-backup-s3.ts:187-200 | the marker built for a verified local set passes the shape check |
| `SealedBackup.MarkerTellsTheTruth` | services/api/src/backup/sealed-backup-s3.ts:222-311 | in any such state, a marker stored uncorrupted makes remote verification succeed with all artifacts verified |
| `SealedBackup.UploadsAreSafeIffNoCollision` | services/api/src/backup/sealed-backup-s3.ts:206-223 | no state of the upload holds a marker that fails verification if and only if no artifact is named like the marker |
| `SealedBackup.DownloadAll` | services/api/src/backup/sealed-backup-s3.ts:344-354 | every listed artifact becomes a local file of its size and digest; no other file changes, and what changes is a copy of what is stored |
| `SealedBackup.Fetch` | services/api/src/backup/sealed-backup-s3.ts:320-358 | fetches only a committed, intact set whose mac is the HMAC of its canonical body, and otherwise writes no file; wherever it stops, only copies of what the marker lists, and of the marker, were written; on a reliable store it fetches every such set |
| `SealedBackup.FetchInvertsPublish` | services/api/src/backup/sealed-backup-s3.ts:159-226 | a fetched set is byte-identical to the published files, and verifies as a backup again, if no two of the published and fetched byte strings share a digest |
| `SealedBackup.PublishThenFetch` | services/api/src/backup/sealed-backup-s3.ts:327-358 | on a reliable store a verified backup is published and fetched back byte for byte, and verifies again; on any store a completed fetch of a marker that is there as written does the same; digests are assumed to tell apart the byte strings that occur |
| `MediaBackup.ReferencedKeys` | services/api/src/backup/media-s3.ts:149-158 | exactly the keys the rows refer to, each once, in order |
| `MediaBackup.LessMeans` | services/api/src/backup/media-s3.ts:157 | the order of the keys: a proper prefix first, otherwise by the first character that differs |
| `MediaBackup.ScanSource` | services/api/src/backup/media-s3.ts:203-220 | with nothing missing, the entries record size and digest of every referenced source object |
| `MediaBackup.CopyOne` | services/api/src/backup/media-s3.ts:279-288 | one object is put unless something of its digest is there; if the digest tells it apart from what is stored, a reliable store then holds its bytes |
| `MediaBackup.CopyAll` | services/api/src/backup/media-s3.ts:276-288 | copied plus skipped is the number of entries, copied the number of writes, and the inventory key is not written |
| `MediaBackup.CheckAll` | services/api/src/backup/media-s3.ts:289-298 | no failure is reported exactly when every entry is stored as recorded |
| `MediaBackup.CopyAndCommit` | services/api/src/backup/media-s3.ts:276-330 | copy, check, inventory last: in no state, nor in what is left behind, does a new inventory precede the set, and on a store that corrupts nothing it is there as encoded; nothing that was there as recorded is touched; completes on a reliable store when digests tell apart the byte strings that occur |
| `MediaBackup.Backup` | services/api/src/backup/media-s3.ts:173-331 | at every step of any run, and in the store it leaves behind, an inventory that exists (none did before) came after every object it must list, is there as encoded on a store that corrupts nothing, and if it is, parses to exactly the referenced keys with what the source held, and verifies; an incomplete source writes nothing; on reliable stores the backup completes if and only if every referenced object is at the source |
| `MediaBackup.BuiltInventoryMeans` | services/api/src/backup/media-s3.ts:236-259 | the inventory that a backup writes, field by field, with the HMAC of the canonical text of its own body |
| `MediaBackup.TotalBytesIsSum` | services/api/src/backup/media-s3.ts:248 | its total is the sum of the sizes |
| `MediaBackup.HonestStates` | services/api/src/backup/media-s3.ts:276-330 | in every state of a trail an inventory that is there as written parses to what was built and verifies |
| `MediaBackup.ReadInventory` | services/api/src/backup/media-s3.ts:343-350 | what is read back is what the stored bytes parse to |
| `MediaBackup.BackupAgain` | services/api/src/backup/media-s3.ts:173-331 | over a completed backup, wherever it stops, the inventory that is there parses and verifies in every state and in what is left behind, if the store corrupts nothing and the source objects of the listed keys are still the recorded ones |
| `MediaBackup.SparedKeepsListed` | services/api/src/backup/media-s3.ts:279-288 | copying keeps every listed object whose digest at the source is still the recorded one, on any store |
| `MediaBackup.RewriteIsOkIff` | services/api/src/backup/media-s3.ts:279-288 | writing over an object of a completed backup leaves one that verifies if and only if what is stored has the recorded size and digest |
| `MediaBackup.CommitKeepsSetIff` | services/api/src/backup/media-s3.ts:314-319 | writing the inventory keeps a complete set complete exactly when no entry bears its name, or has its very bytes |
| `MediaBackup.Verify` | services/api/src/backup/media-s3.ts:380-434 | ok exactly when the inventory is well shaped and authentic and every object is stored as recorded, and then its mac is the HMAC of the canonical text of its body; the three counts add up and missing is exact |
| `MediaBackup.BackupVerifiesMeans` | services/api/src/backup/media-s3.ts:352-434 | verification spelled out: the mac is the HMAC of the canonical text of the inventory's own body, its counts agree, and every listed object is stored with its size and digest |
| `MediaBackup.AlteredInventoryIff` | services/api/src/backup/media-s3.ts:400-412 | an inventory that keeps its mac under another well-shaped body that lists what is stored verifies if and only if HMAC does not tell the two canonical texts apart |
| `MediaBackup.CompletedBackupVerifies` | services/api/src/backup/media-s3.ts:236-259 | what a completed backup stored passes verification |
| `MediaBackup.RestoreOne` | services/api/src/backup/media-s3.ts:474-493 | one object: skipped or restored means the destination holds its digest; nothing but its key is touched |
| `MediaBackup.RestoreAll` | services/api/src/backup/media-s3.ts:471-494 | every object is counted once, restored being the writes, and with no failure every original key holds its recorded digest |
| `MediaBackup.Restore` | services/api/src/backup/media-s3.ts:443-495 | aliased targets and the original primary are refused; other keys of the destination never change, and none ever receives bytes that were not verified; an intact backup restores without failures between reliable stores |
| `MediaBackup.RestoreInvertsBackup` | services/api/src/backup/media-s3.ts:453-495 | after a restore without failures every referenced key holds the source bytes, if no two of the byte strings at source and destination share a digest |
| `MediaBackup.BackupVerifyRestore` | services/api/src/backup/media-s3.ts:189-495 | backup, the inventory read back from the store, verification and restore composed under every fault: an inventory that is there as written verifies, and a restore without failures holds the source bytes under every referenced key and touches no other; all of it completes on reliable, distinct stores |
| `KeyRotation.BoxRoundTrip` | packages/context-engine/src/secret-box.ts:50-75 | a box sealed under the current key opens under every keyring that starts with it |
| `KeyRotation.BoxLayout` | packages/context-engine/src/secret-box.ts:50-57 | a box is the version byte 1, 12 bytes of nonce, 16 of tag and the ciphertext, in that order |
| `KeyRotation.OpenMeans` | packages/context-engine/src/secret-box.ts:59-75 | opening takes a box apart the same way and refuses every other key length, version or shorter box |
| `KeyRotation.KeyringReadsFirst` | packages/context-engine/src/secret-box.ts:100-110 | the earliest key that opens a box decides what it reads as |
| `KeyRotation.RotateOne` | services/api/src/db/rotate-media-key.ts:71-92 | one key: its blob reads the same under both keys together, ends up settled when applying, and is counted under exactly one of the four headings |
| `KeyRotation.RotateKeys` | services/api/src/db/rotate-media-key.ts:69-93 | one row's keys in turn |
| `KeyRotation.RotateMedia` | services/api/src/db/rotate-media-key.ts:57-94 | wherever the run stops every blob keeps its plaintext under new and old key together; every key visited is counted once, with exact missing and undecryptable counts, and the writes are the rotated blobs; nothing settled is rewritten; a dry run writes nothing; it completes when every call returns |
| `KeyRotation.VisitedMeans` | services/api/src/db/rotate-media-key.ts:57-70 | visited are exactly the image keys and the non-empty thumbnail keys of the rows |
| `KeyRotation.CountsMean` | services/api/src/db/rotate-media-key.ts:71-90 | each visit that finds nothing counts as missing, and each that finds what neither key opens as undecryptable |
| `KeyRotation.TallyOneMore` | services/api/src/db/rotate-media-key.ts:71-92 | one more key keeps the counters exact with respect to what the store held before the run |
| `KeyRotation.NewKeyAloneSuffices` | services/api/src/db/rotate-media-key.ts:24-34 | when plaintexts were kept and nothing is left to rotate, the new key alone reads everything either key could, and with an undecryptable count of 0 it opens every blob |
| `KeyRotation.RotateAndDrop` | services/api/src/db/rotate-media-key.ts:24-34 | so after a completed applying run the old key can be dropped |
| `KeyRotation.KeyringReadsSurvive` | packages/context-engine/src/secret-box.ts:100-110 | at any point of a run, a keyring of new and old key reads every blob as before |
| `KeyRotation.CountsStay` | services/api/src/db/rotate-media-key.ts:71-90 | rotation changes neither which keys are missing nor which blobs are undecryptable |
| `KeyRotation.RotateTwice` | services/api/src/db/rotate-media-key.ts:24-27 | a second run makes no write at all, and counts the same keys, the same missing and the same undecryptable ones |
| `MediaLifecycle.MediaStorage.Enqueue` | services/api/src/media/media-service.ts:222-238 | a tombstone per storage key, bumped when it is already there |
| `MediaLifecycle.BumpedMeans` | services/api/migrations/0009_m9_media_ops.sql:7-16 | a new tombstone has one attempt and one that is there gets one more; no other changes |
| `MediaLifecycle.KeysMean` | services/api/src/media/media-service.ts:202-209 | a row owns its image and, where there is one, its thumbnail |
| `MediaLifecycle.MediaStorage.DeleteKey` | services/api/src/media/media-service.ts:208-216 | the blob is gone, or its key is tombstoned |
| `MediaLifecycle.MediaStorage.DeleteRowBlobs` | services/api/src/media/media-service.ts:205-218 | each key of the row is gone or tombstoned, and no step loses a blob's owner |
| `MediaLifecycle.MediaStorage.ReleaseRows` | services/api/src/media/media-service.ts:203-219 | the loop over rows keeps every blob owned, and deletes quietly when nothing fails |
| `MediaLifecycle.MediaStorage.DeleteForMoments` | services/api/src/media/media-service.ts:187-220 | the same for all rows of the user's moments; store failures alone never stop it, and without them exactly those blobs go and nothing is queued |
| `MediaLifecycle.MediaStorage.DeleteMoment` | services/api/src/routes-m3.ts:224-273 | wherever it stops no blob loses its owner if the pipeline is available; store failures never block it; without the pipeline no orphan arises exactly when every stored key is tombstoned or shared; wherever it stops, no other blob is deleted and no other key tombstoned |
| `MediaLifecycle.MediaStorage.LockAccount` | services/api/src/routes-account.ts:289-298 | the account is locked and nothing else changes |
| `MediaLifecycle.MediaStorage.DestroyAccount` | services/api/src/routes-account.ts:300-369 | blobs or tombstones first, rows last; with the pipeline and a working store exactly the blobs of the user go and nothing is tombstoned, without the pipeline no blob goes and exactly their keys are tombstoned |
| `MediaLifecycle.MediaStorage.DeleteAccount` | services/api/src/routes-account.ts:289-370 | wherever it stops, with or without the pipeline, no blob loses its owner and nothing is destroyed while the account is usable; store failures never block it; afterwards every key of the user's rows is absent or tombstoned; with the pipeline and a working store exactly the user's blobs go and nothing is tombstoned, without the pipeline exactly their keys are tombstoned; wherever it stops, no other blob is deleted and no other key tombstoned |
| `MediaLifecycle.MediaStorage.EnqueueAll` | services/api/src/routes-account.ts:312-327 | one statement tombstones every key of the rows, with one attempt more than before or the first |
| `MediaLifecycle.RowsGoneUntombstoned` | services/api/src/routes-m3.ts:227-251 | deleting rows alone creates no orphan exactly when each stored key is tombstoned or shared with a remaining row |
| `MediaLifecycle.OnlyTombstonesEndanger` | services/api/src/media/media-service.ts:203-238 | of the steps of a deletion, only a tombstone that takes effect for a stored key that a row refers to makes a blob referenced and tombstoned at once |
| `MediaLifecycle.CommitDecides` | services/api/src/routes-m3.ts:224-273 | the final transaction ends that state exactly when it takes effect and no row that stays shares the key |
| `MediaLifecycle.FailedCommitEndangers` | services/api/src/routes-account.ts:289-370 | every stored blob of every row can be left in that state by a deletion that fails to commit |
| `MediaLifecycle.OrphansStay` | services/api/src/media/media-service.ts:187-220 | no deletion of moments or accounts removes or tombstones a blob without an owner |
| `MediaCleanup.DrainOne` | services/api/src/media/cleanup.ts:55-69 | a tombstone goes only when its blob is gone |
| `MediaCleanup.DrainDeleteQueue` | services/api/src/media/cleanup.ts:43-71 | every tombstone is retried once and deleted plus remaining is their number; with no failures exactly the tombstoned blobs go and the queue is empty; a dry run touches nothing; no more are reported deleted than are gone |
| `MediaCleanup.DrainSparesReferencedIff` | services/api/src/media/cleanup.ts:55-59 | a drain without failures spares every referenced blob if and only if no referenced, stored key is tombstoned |
| `MediaCleanup.FailedCommitThenDrain` | services/api/src/media/cleanup.ts:55-59 | for every stored blob of every row there are a deletion that fails to commit and a drain after it that removes the blob from under the row |
| `MediaCleanup.SweepOne` | services/api/src/media/cleanup.ts:106-120 | one listed object: owned, too recent, or an old orphan that is removed |
| `MediaCleanup.RemoveOrphans` | services/api/src/media/cleanup.ts:82-120 | removes only unowned blobs that are old enough, all of them when it completes; the counters are exactly the old and the recent orphans, deleted is orphans in a deleting run and 0 in a dry one, and the map is exactly the removals per owner |
| `MediaCleanup.CountOneMore` | services/api/src/media/cleanup.ts:116-118 | the per-user map is the number of deleted keys per owner |
| `MediaCleanup.CountedStep` | services/api/src/media/cleanup.ts:101-112 | the orphan and recent counters count exactly the visited keys of each kind |
| `MediaCleanup.RunMediaCleanup` | services/api/src/media/cleanup.ts:73-144 | a completed deleting run leaves only blobs that are referenced, tombstoned or younger than the age guard, and with no failures exactly those; no stop creates an orphan; every number of the report is exact in dry and deleting runs, and the audit has exactly the owners that exist and lost orphans, with how many; a dry run touches nothing |
| `MediaCleanup.AuditIsExact` | services/api/src/media/cleanup.ts:122-133 | the audit entries are the per-owner numbers of deleted orphans, of owners that still exist |
| `MediaCleanup.ReferencedBlobsSurvive` | services/api/src/media/cleanup.ts:12-21 | a referenced blob that the queue does not hold survives every run |
| `MediaCleanup.UnknownAgeIsNeverRecent` | services/api/src/media/cleanup.ts:108-111 | a blob is never protected by the age guard if and only if its modification time is unknown |
| `MediaCleanup.RecentMeans` | services/api/src/media/cleanup.ts:101-111 | a known modification time protects exactly for less than the guard |
| `MediaCleanup.OwnerMeans` | services/api/src/media/cleanup.ts:116-118 | a key is attributed to what stands before its first slash |
| `CleanupTiming.InvStep` | services/api/src/media/cleanup.ts:78-120 | every step of captures, deletions and cleanup keeps the invariant that the snapshot of rows covers every image old enough to be swept |
| `CleanupTiming.InvHolds` | services/api/src/media/media-service.ts:89-135 | the invariant holds after every legal interleaving |
| `CleanupTiming.NeverReferencedAgain` | services/api/src/media/cleanup.ts:78-120 | with modification times and rows inserted less than the age guard after the first put, a swept key is referenced neither then nor at any later point |
| `CleanupTiming.LateRowIsUnsafe` | services/api/src/media/cleanup.ts:106-114 | otherwise a run exists that sweeps the blob of a row inserted afterwards |
| `CleanupTiming.SafeIff` | services/api/src/media/cleanup.ts:17-19 | every run is safe if and only if no row follows its first put at all, or times are reported and rows arrive within the age guard |
| `ActionExecution.ExecutionGateIsStrictest` | packages/context-engine/src/media-gate.ts:57-94 | the worker's gate passes exactly the user's own, redacted, stored, readable media, and whatever it passes every laxer setting passes |
| `ActionExecution.GateMeans` | packages/context-engine/src/media-gate.ts:57-94 | each refusal has its one reason, looked for in the order ownership, redaction state, blob, decryption |
| `ActionExecution.ApprovedAction.Approve` | services/api/src/routes-m2.ts:323-431 | succeeds exactly for a proposed action whose every requested media file is the user's own, of its moment and redacted, records that as the grant, and a failed enqueue puts the action back |
| `ActionExecution.ApprovedAction.Reject` | services/api/src/routes-m2.ts:498-524 | only a proposed action becomes rejected |
| `ActionExecution.ApprovedAction.MarkActionFailed` | services/worker/src/actions.ts:67-81 | never clobbers a completed action; a queued or executing one is failed with an error as its result |
| `ActionExecution.ApprovedAction.CallUpload` | services/worker/src/actions.ts:307-312 | an upload happens only for an id of the granted list not yet recorded, with a row that was the user's own, redacted and readable, and the ledger gets that upload |
| `ActionExecution.ApprovedAction.ReadAndAudit` | services/worker/src/actions.ts:288-307 | what passes is a row that is the user's own, redacted, stored and readable when it is read; when no other call fails, a refused row ends the attempt as terminal with the action failed, and nothing else does |
| `ActionExecution.ApprovedAction.RecordUpload` | services/worker/src/actions.ts:313-320 | the upload id is on the row, or the upload is counted as lost |
| `ActionExecution.ApprovedAction.UploadOne` | services/worker/src/actions.ts:286-325 | the gate reads the table as it is now, which others may change between any two steps; then audit, upload and record; one upload more on success, and every way out keeps the accounts balanced |
| `ActionExecution.ApprovedAction.UploadAll` | services/worker/src/actions.ts:278-327 | on success every approved file was uploaded, none that was already recorded is uploaded again, and no file more than once but for uploads answered without an id; when no call fails it succeeds if and only if every file yet to be uploaded is the owner's, applied, stored and readable, and otherwise the action has failed for good |
| `ActionExecution.ApprovedAction.CallCreatePage` | services/worker/src/actions.ts:329-335 | at most one page, and a call whose answer is lost is counted |
| `ActionExecution.ApprovedAction.RecordPage` | services/worker/src/actions.ts:336-351 | the page id lands in the statement that completes the action, or the page is counted as lost |
| `ActionExecution.ApprovedAction.CreatePage` | services/worker/src/actions.ts:329-377 | finishing means completed, with exactly one page created and none lost |
| `ActionExecution.ApprovedAction.RunClaimed` | services/worker/src/actions.ts:152-377 | a claimed attempt uploads first and creates the page last: finishing means every approved file was uploaded, none twice, and one page was created |
| `ActionExecution.ApprovedAction.ExecuteAction` | services/worker/src/actions.ts:94-378 | an attempt and how it ended go on record; it creates at most one page, none once a page id is on the row or unless the action was queued or executing, and loses at most one answer, and then it did not finish; finishing means every approved file was uploaded at least once; one in which no call fails finishes if and only if a page is on the row or every approved file yet to be uploaded is the owner's, applied, stored and readable, and otherwise ends as terminal with the action failed |
| `ActionExecution.AnyRun` | services/worker/src/actions.ts:388-427 | over any sequence of approvals, rejections, attempts, failures and media changes, also within attempts, from a proposed action: no page and no upload before the first approval; the list the worker uses is the approved one, eligible when it was approved, and every upload is drawn from it, of a row that was the user's own and redacted when the gate read it; pages and uploads per file are at most 1 plus the recorded attempts that did not finish (plus uploads answered without an id); a page id is on the row exactly when it is completed, and then every approved file was delivered |
| `ActionExecution.RunBounds` | services/worker/src/actions.ts:94-378 | an action whose accounts balance and whose losses are covered by unfinished attempts is within those bounds |
| `ActionExecution.GrantedMeans` | services/worker/src/actions.ts:278-327 | spelled out: only approved files left, each the owner's and redacted when the gate read it, under an approval of files that were the owner's, redacted and of the action's moment when it was given |
| `PayloadTrees.CleanIsClean` | services/api/src/image-redaction.ts:37-56 | a stripped tree has no image at any depth |
| `PayloadTrees.CleanHasNoImages` | services/api/src/image-redaction.ts:37-56 | a clean tree yields no images to extract |
| `PayloadTrees.ImageUrlMeans` | packages/context-engine/src/data-url.ts:17-28 | an inline image is data:image/ in letters of either case after nothing but whitespace |
| `PayloadTrees.LegacyKeyMeans` | services/api/src/legacy-media.ts:27-30 | the legacy key in letters of either case |
| `PayloadTrees.IdentityIffClean` | packages/context-engine/src/capture-mode.ts:40-55 | a walker leaves a tree alone if and only if it is clean |
| `PayloadTrees.CleanIsIdempotent` | services/api/src/legacy-media.ts:36-59 | walking twice is walking once |
| `PayloadTrees.StripImages` | services/api/src/image-redaction.ts:37-56 | the cleaned tree, with the counter up by one for every image in it |
| `PayloadTrees.ExtractPayloadImages` | services/api/src/image-redaction.ts:146-173 | the same cleaned tree, and every image in order with its kind |
| `PayloadTrees.ExtractedAreTheImages` | services/api/src/image-redaction.ts:148-173 | as many images are extracted as are stripped: the same ones, in the same order |
| `PayloadTrees.FieldKinds` | services/api/src/image-redaction.ts:150-170 | a value directly under a screenshot key is a screenshot, and the key does not reach further down |
| `PayloadTrees.ItemKinds` | services/api/src/image-redaction.ts:150-170 | and no array item is |
| `PayloadTrees.StripTextOnlyCleans` | packages/context-engine/src/capture-mode.ts:37-55 | the client's text-only filter computes the cleaned tree |
| `PayloadTrees.CaptureModeLaws` | packages/context-engine/src/capture-mode.ts:29-35 | text-only sends the clean tree; a mode leaves a payload alone exactly when it is not text-only or the payload is clean |
| `PayloadTrees.SanitizeWalk` | services/api/src/legacy-media.ts:36-59 | the cleaned tree, and found is set exactly when an image or a non-null legacy key was met |
| `PayloadTrees.ImagesAreFound` | services/api/src/legacy-media.ts:36-59 | an image at any depth, under a legacy key too, is found |
| `PayloadTrees.NothingFoundMeans` | services/api/src/legacy-media.ts:36-59 | what is not found leaves a clean tree, but for prototype keys and legacy keys that hold null |
| `PayloadTrees.SanitizeLegacyInlineMedia` | services/api/src/legacy-media.ts:32-71 | the cleaned tree, with the flags spread in when something was found |
| `PayloadTrees.FlaggedMeans` | services/api/src/legacy-media.ts:25-68 | a flagged object reads as before at every key but the three flags, which have their values |
| `PayloadTrees.DigitsMean` | services/api/src/legacy-media.ts:63-64 | a spread array has its indices as keys, in decimal digits without a leading zero |
| `PayloadTrees.SanitizerLaws` | services/api/src/legacy-media.ts:32-71 | on an object: the text-only filter plus the three flags exactly when something was found; image-free, idempotent, and the identity exactly on clean trees |
| `PayloadTrees.SanitizedIsCleanIff` | services/api/src/legacy-media.ts:32-71 | what the sanitizer returns is clean, and has no image at any depth, if and only if the payload is not itself an image string, arrays included |
| `MediaService.KeysAreSeparate` | services/api/src/media/media-service.ts:90-94 | two media with different ids never share a key, whoever owns them, thumbnails included |
| `MediaService.MediaService.StoreOne` | services/api/src/media/media-service.ts:89-136 | blobs before row: a row that is there has its image and its thumbnail in the store as ciphertext under the current key, whichever call throws; only the two keys of its id are touched |
| `MediaService.RowMeans` | services/api/src/media/media-service.ts:87-134 | the row field by field: owner, moment, kind, state, keys, type, sizes, width and height as decoded, the thumbnail's exactly where there is one |
| `MediaService.MediaService.StoreMomentImages` | services/api/src/media/media-service.ts:78-139 | in an unsafe state nothing is stored; otherwise, wherever it stops, the rows added are those of a prefix of the images, each with its blobs, every other new blob is of the next image, and no other row or blob changes; all are stored when every call returns and every URL parses |
| `MediaService.MediaService.GetMedia` | services/api/src/media/media-service.ts:142-166 | only the owner's media, only in a safe state, decrypted with whichever key of the keyring opens the blob |
| `MediaService.ReadMeans` | services/api/src/media/media-service.ts:142-166 | only the caller's own media in the state applied or none are served: the thumbnail as a JPEG where it is asked for and exists, otherwise the image with its type, as the first key of the keyring that opens the blob reads it; not found without a blob, an error when no key opens it |
| `MediaService.StoredIsServed` | services/api/src/media/media-service.ts:142-166 | a stored image is served to its owner byte for byte with its type, its thumbnail where there is one, and to nobody else |
| `MediaService.OthersReadTheSame` | services/api/src/media/media-service.ts:89-136 | storing images changes no read of any medium that was there before |
| `MediaService.RotationIsInvisible` | services/api/src/db/rotate-media-key.ts:24-34 | a service that holds the new and the old key reads the same at every point of a rotation |
| `MediaService.StoreThenGet` | services/api/src/media/media-service.ts:78-166 | storing, then reading back gives the image or its thumbnail |
| `MediaOwnership.OnlyTheLastIsOrphaned` | services/api/src/media/media-service.ts:89-136 | wherever a batch stops, the only blobs without an owner that it leaves are those of the one image it was at; if it does not stop it leaves none |
| `MediaOwnership.OrphanUntilInserted` | services/api/src/media/media-service.ts:113-134 | a stored image without a tombstone is an orphan if and only if its row is not in the table |
| `MediaOwnership.OnlyTheSweepRemoves` | services/api/src/media/cleanup.ts:9-20 | no deletion and no drain removes an orphan, and a full cleanup keeps it if and only if it is younger than the age guard |
| `MediaOwnership.StoreImages` | services/api/src/media/media-service.ts:78-139 | the batch itself: a new orphan means that it stopped, and is a blob of the image it stopped at |
| `CapturePipeline.ReplaceImages` | services/api/src/image-redaction.ts:79-116 | every image of the rebuilt tree is one of the replacements, and there are no more images than replacements |
| `CapturePipeline.ReplaceInOrder` | services/api/src/image-redaction.ts:79-121 | each replacement stands where the image it replaces stood, if there is no prototype key |
| `CapturePipeline.ReplaceKeepsTheRest` | services/api/src/image-redaction.ts:107-115 | rebuilding the tree changes nothing but images |
| `CapturePipeline.WalkImages` | services/api/src/image-redaction.ts:71-118 | in whatever order the parallel walk meets the images, failed is set exactly when there are more than six or one made OCR or decoding fail, uncertified (with at most six) exactly when one is too small, and with neither each image was replaced by its own certified result; every text passed on is the safe text of an image |
| `CapturePipeline.RedactPayloadImages` | services/api/src/image-redaction.ts:58-144 | each state exactly in its case, independent of the order of the walk: applied when storage and OCR are on and there are 1 to 6 images, all certified; failed, in non-strict mode, when there are more than 6 or one made OCR or decoding fail, and coverage-insufficient when otherwise one is too small; strict keeps no uncertified image; nothing but images changes |
| `CapturePipeline.Prepare` | services/api/src/app.ts:422-468 | redaction then extraction: the payload to persist is the captured one without its images, and images are handed over in a safe state only when all were certified, as their certified results |
| `CapturePipeline.Capture` | services/api/src/app.ts:422-499 | for every payload, OCR behaviour, setting, interleaving and storage fault: the persisted payload is the captured one without its images; whatever gets a row is the certified result of one of its images, all of which were certified, with its ciphertext in the store; no other row or blob changes; in the applied state and without a storage failure every certified result is stored |
| `CapturePipeline.AppliedAreCertified` | services/api/src/app.ts:422-499 | in an applied payload every image is the certified result of one of the captured images, and there are no more of them |
| `CapturePipeline.AppliedInOrder` | services/api/src/image-redaction.ts:79-121 | the i-th image of an applied payload is the result of the i-th image captured, spelled out: itself if nothing had to be masked, otherwise the data URL of what it was encoded to |
| `CapturePipeline.RedactFrames` | services/api/src/image-redaction.ts:175-205 | every certified frame i goes on, at the number of certified frames before it: as it is if nothing had to be masked, and otherwise as the PNG or JPEG data URL of what it was encoded to; nothing else goes on, the rest are counted as dropped, and the masked words are added up |
| `CapturePipeline.CertifiedFrameAt` | services/api/src/image-redaction.ts:190-199 | the value at the number of certified frames before frame i, spelled out |
| `CapturePipeline.FramesAreResults` | services/api/src/image-redaction.ts:190-199 | nothing goes on that is not the result of a certified frame |
| `VisualRedaction.SortLaws` | packages/context-engine/src/visual-redaction.ts:83-85 | the sort by row and by column is an ordered permutation |
| `VisualRedaction.SortIsStable` | packages/context-engine/src/visual-redaction.ts:83-85 | words that compare equal keep their order |
| `VisualRedaction.OrdersMean` | packages/context-engine/src/visual-redaction.ts:83-101 | rows from top to bottom by the middles of the words and then from left to right, columns from left to right |
| `VisualRedaction.VisibleMeans` | packages/context-engine/src/visual-redaction.ts:82-83 | a word is dropped exactly when it is all whitespace |
| `VisualRedaction.GroupsCutTheWords` | packages/context-engine/src/visual-redaction.ts:86-100 | the groups are consecutive runs of the sorted words, each word within the tolerance of its group's first, and each run as long as that allows |
| `VisualRedaction.SameLineMeans` | packages/context-engine/src/visual-redaction.ts:88-96 | two words share a line exactly when their middles are at most seven tenths of the taller one apart |
| `VisualRedaction.BuildLine` | packages/context-engine/src/visual-redaction.ts:101-113 | the loop lays a group out from left to right |
| `VisualRedaction.LayoutIsAligned` | packages/context-engine/src/visual-redaction.ts:103-112 | text[starts[i]..ends[i]] is word i, words are separated by one space, and the whole text is covered |
| `VisualRedaction.GroupWords` | packages/context-engine/src/visual-redaction.ts:86-100 | the loop groups the sorted words |
| `VisualRedaction.ToLines` | packages/context-engine/src/visual-redaction.ts:81-114 | the lines of the words |
| `VisualRedaction.LinesHoldTheWords` | packages/context-engine/src/visual-redaction.ts:81-114 | the lines are a permutation of the non-blank words, each aligned and ordered from left to right |
| `VisualRedaction.LinesAreRuns` | packages/context-engine/src/visual-redaction.ts:81-114 | in row order the words fall into runs, each as long as its first word's tolerance allows, and the k-th line holds the words of the k-th run |
| `VisualRedaction.SensitiveCharacters` | packages/context-engine/src/visual-redaction.ts:144-151 | every character of a sensitive range is a separator or lies in a word that overlaps the range |
| `VisualRedaction.OverlapsMeans` | packages/context-engine/src/visual-redaction.ts:144-151 | a non-empty range overlaps a word exactly when they have a character in common |
| `VisualRedaction.BoxedIff` | packages/context-engine/src/visual-redaction.ts:144-152 | coordinates are boxed if and only if a word with them is overlapped by a sensitive range of its line |
| `VisualRedaction.ClassifySensitiveWords` | packages/context-engine/src/visual-redaction.ts:121-155 | the loops yield those boxes, and the tally counts the ranges per kind |
| `SafeText.KeptIffNotSensitive` | packages/context-engine/src/visual-redaction.ts:327-335 | a word goes into the indexed text if and only if no sensitive word has its coordinates |
| `SafeText.KeptLineOccurs` | packages/context-engine/src/visual-redaction.ts:329-337 | what is kept of a line appears in one piece before the cut at 50,000 |
| `SafeText.BodyMeans` | packages/context-engine/src/visual-redaction.ts:329-337 | the text of two runs of lines is that of the first, a newline, and that of the second; a run without text adds nothing |
| `SafeText.KeptTextIsAligned` | packages/context-engine/src/visual-redaction.ts:330-335 | the text of one line is its kept words, each in its place, with one space between them |
| `SafeText.SafeTextMeans` | packages/context-engine/src/visual-redaction.ts:338 | the indexed text is the first 50,000 characters |
| `SafeText.MaskedWordsDoNotLeak` | packages/context-engine/src/visual-redaction.ts:326-339 | whatever the masked words said, the indexed text is the same |
| `ImageMasking.IndexIsInjective` | packages/context-engine/src/visual-redaction.ts:305-310 | two pixels of the bitmap never share a byte |
| `ImageMasking.PaintPixel` | packages/context-engine/src/visual-redaction.ts:305-310 | the scan callback makes one pixel opaque black and touches no other |
| `ImageMasking.PaintRect` | packages/context-engine/src/visual-redaction.ts:305-310 | a scan paints exactly its rectangle |
| `ImageMasking.ClippedExactly` | packages/context-engine/src/visual-redaction.ts:300-304 | flooring, ceiling, padding and clipping select exactly the pixels whose unit square meets the box grown by three on each side |
| `ImageMasking.PaintBox` | packages/context-engine/src/visual-redaction.ts:299-311 | one box paints exactly those pixels, and an empty clip none |
| `ImageMasking.PaintBoxes` | packages/context-engine/src/visual-redaction.ts:299-311 | afterwards a pixel is opaque black if it meets some padded box, and otherwise what it was |
| `ImageMasking.RedactImage` | packages/context-engine/src/visual-redaction.ts:240-324 | certified exactly when the image parses, decodes, meets 1280 by 600 and OCR succeeds (and encoding does not fail); below the floor OCR plays no part and no pixel changes |
| `ImageMasking.MaskingIsComplete` | packages/context-engine/src/visual-redaction.ts:299-311 | every pixel that touches a sensitive word is opaque black |
| `ImageMasking.MaskingIsExact` | packages/context-engine/src/visual-redaction.ts:299-311 | every changed pixel touches a sensitive word |
| `MaskedCapture.RedactDataUrl` | packages/context-engine/src/visual-redaction.ts:240-324 | a certified result is a safe copy: the image itself when nothing in it is sensitive, otherwise the encoding of its masked bitmap |
| `MaskedCapture.StoredAreSafeCopies` | services/api/src/app.ts:422-499 | whatever capture stores is a safe copy of one of the payload's images |
| `MaskedCapture.RedactLiveFrames` | services/api/src/image-redaction.ts:175-205 | live frames end to end: everything handed on is a safe copy of one of the captured frames |
| `MaskedCapture.FramesAreSafeCopies` | services/api/src/image-redaction.ts:186-204 | the results of certified frames are safe copies of them |
| `MaskedCapture.BoxesAreSensitiveWords` | packages/context-engine/src/visual-redaction.ts:144-152 | a pixel touches a padded box if and only if it touches a sensitive word |
| `MaskedCapture.SafeCopyShows` | packages/context-engine/src/visual-redaction.ts:299-324 | a safe copy shows black on every pixel that a sensitive word touches and the captured image on every other; a copy that is the image itself has no sensitive word |

## Left out

- HTTP routing, authentication, SQL text, BullMQ, analytics and log lines: only atomic transitions on maps, sets and rows remain.
- Cryptography, JSON text, canonical key order (`localeCompare`), image decoding and encoding, and the OCR engine: function values with named hypotheses; a lossy JPEG re-encoding may blur the black that is proved about the bitmap.
- Regular expressions: the text detectors are an arbitrary function from a line to ranges, so nothing is said about what they recognize. Only the Luhn validator of one of them is modelled.
- Floating-point rounding of OCR coordinates: they are reals; NaN coordinates are not modelled.
- Characters: payload strings use Dafny characters where JavaScript has UTF-16 code units; the key order of the media inventory compares characters.
- Object keys of payloads that look like array indices, which JavaScript enumerates first, keep their given position.
- A process-wide clock that goes back: the buffer's closed form and order, and the limiter bounds, are stated for nondecreasing times; the eviction limits hold for any times.
- Two executions of one action job at the same time, an enqueue that throws after enqueuing, and deleting the action row during an attempt: the code promises nothing there. `ActionExecution` also leaves out destination lookup, property mapping, audit rows and the internal adapters that run inline.
- Rotation of integration tokens: the same loop over another table. `KeyRotation` requires a store whose writes land whole or not at all, as the command itself relies on: a torn write would lose a blob.
- The report's text, blocking reasons, warnings, metrics and sanitization in the gate runner: they do not feed the verdict.
- Masked and tally counters of a whole payload and the joining of OCR chunks: sums over images with nothing to prove across functions.
- Reads that list, export or total media (`listForMoments`, `exportForMoments`, usage): one query each, no run to reason about. `MediaService` takes the UUIDs it uses as a parameter, as fresh ids, and the parsing of data URLs and the thumbnails as functions.
- Building and writing a local manifest, and store identity canonicalization: the backup starts from a directory and a fingerprint function.
- ActionExecution.AnyRun: bounds what a whole run may have done, not how long it takes, because the provider and the tables may fail forever; that an undisturbed attempt finishes is in `ExecuteAction`.
- CleanupTiming.SafeIff: image ids are fresh UUIDs and a capture's puts never repeat; the delete and rewrite steps may happen in any order and number, which covers more runs than the code has.
- Search ranking, enrichment, suggestions, smoke and preflight reports, migrations, the extension and desktop shells: outside the engines above.
