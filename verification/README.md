# A model of the runner

This project models the parts of the Gitea Actions runner where many steps, requests or bytes have to
work together, and proves what those parts promise. Paths are relative to the repository's root.

- **Artifact cache.** `Storage` (staged parts, blocks and final blobs), `CacheModel` (one request as one
  step over a table of entries and the blobs), `CacheHandler` (the same requests as methods of an object),
  and what holds of them: `CacheLookup`, `CacheGc`, `CacheInvariant`, `CacheIsolation`, `CacheUpload`,
  `CacheSave`.
- **Executors and jobs.** `ParallelExecutor` (senders, workers and collector as interleaved steps),
  `Executors` (`Then`, `Finally`, pipelines over contexts that may end at any moment), `JobModel` (one
  job's run), `JobBuilder` (the closures that make it up), `JobOrder`, `JobStatus`, `JobIds`,
  `JobInterrupt`, `JobContinue`, `JobErrors`.
- **Codecs and text machines.** `Base64`, `MaskCache` and `Replacer` (log masking), `EnvFile`, `Commands` and
  `CommandForms`, `LineWriting`, `Output` and `OutputEffects` (a step's output and what its commands do),
  `ServiceNames`, `Glob` and `GlobWalk` (the search behind `hashFiles`).

## How the model is set up

A cache request carries the time and the outcome of every tie the table library leaves open (`Event`);
what is proved holds for every way ties can fall. Losing a blob is a step of the environment.

A context is a value that says when it ends and why. Time advances with every action and with every look
at a context, so it may end between any two of them. What steps do, how long fresh contexts last and what
conditions evaluate to are functions of the moment, about which nothing is assumed.

The parallel executor's channels, workers and collector are one state; any goroutine may move next.

A command's pattern is matched by the backtracking search that greedy matching stands for; its contract
says that the match found is the one preferred of all that exist.

## Where the code falls short of a simple statement

- A block list leaves earlier ordered parts in place. It is committed as its concatenation exactly when no
  such part beyond it holds a byte and its size is declared or unknown; otherwise what is left is appended,
  or with a declared size the upload is lost (`BlockListIsConcatenation`). `LeftoverLosesUpload` is a run in
  which that happens to a client that lists fewer blocks the second time.
- A repository can tell that an id belongs to another one, by the refusal it gets: exactly when a v1 upload
  or commit names it (`OnlyForbiddenShows`, with a run in `ForbiddenHappens`). Nothing else shows.
- The unshifted base64 form of a secret stands at its aligned position in a payload's encoding exactly when
  the secret fills its last group or ends the payload (`AlignedFormOccurs`), and may stand nowhere in it
  (`AlignedFormCanBeMissing`). The shifted fragments always stand at theirs, for secrets that leave one:
  those of ten bytes or more, counting the shift (`ShiftEncodeLength`).
- A masked line holds no masked pattern anywhere (`NothingLeaks`), unless the pattern begins or ends with a
  star or has three in a row; then, and only then, the stars of a replacement can complete it (`LeaksIff`).
- An exported variable comes back as it was exactly when its name has no equals sign, line feed or `<<` and
  does not end in `<`, no line of its value ends in a carriage return, and the value does not begin with a
  line feed (`ExportReadIff`; `LeadingFeedIsLost` and `EqualsInNameIsMisread` are two that do not).
- A printed command is received as meant exactly under conditions on its name, properties and message
  (`CommandRoundTrip`; `DoubleColonIsMisread` fails them). A command whose properties all have empty values
  is never received as meant, and with a plain name is received at all exactly when its message holds
  another place to cut (`EmptyPropertiesReceivedIff`).
- A line of the form `##[name k=v;k=v]data` is read as it was laid out exactly when its data has no bracket
  at which the pattern can cut instead (`BracketLineReadIff`).
- A failure is forgotten when a later step has the failed step's id. The job status only rises when no step
  that can run while the job succeeds has a later step of its id (`FailuresKeptRise`); where conditions can
  be evaluated and do not change over time while the job succeeds, only then (`RisesIffFailuresKept`, with a
  failing run in `SharedIdForgetsRun`). An id may clash with the index that stands for a missing one
  (`IndexClash`, `DistinctIdsSpelledOut`).
- A search path that runs through a regular file fails the whole search, whatever the other patterns match
  (`FindAll`; `FileOnTheWayFails` is such a search).
- A segment such as `[!]` is one name for the search path and any character for the matcher; the search then
  starts too low and misses what only the matcher accepts (`IllFormedMisses`).
- An interrupt that lands between the two looks taken before the post steps detaches them but is not
  recorded (`PostsDetach`); the comment in `act/runner/job_executor.go:291-292` does not mention this.

## Model

| member | source | states |
|---|---|---|
| Storage.HexOrder | act/artifactcache/storage.go:159-161 | Fixed-width hexadecimal names sort as the numbers they print |
| Storage.TempNameOrder | act/artifactcache/storage.go:159-161 | A part's name sorts, and equals another's, exactly as its offset does |
| Storage.PrefixMarksBlocks | act/artifactcache/storage.go:163-187 | The `block-` prefix tells blocks from parts, so no part is left out and no block assembled |
| Storage.ListingSorted | act/artifactcache/storage.go:174-187 | A directory listing is strictly sorted by name |
| Storage.AssembledInOrder | act/artifactcache/storage.go:80-139 | Commit concatenates the parts in numeric order of offset and leaves blocks out |
| Storage.PartitionAssembles | act/artifactcache/storage.go:80-139 | Parts that partition an archive by offset assemble to the archive |
| Storage.ReassemblyIsOrderIndependent | act/artifactcache/storage.go:42-44 | Parts uploaded in any order, with retries, that partition an archive are committed as it when its size is declared or unknown; otherwise commit fails and leaves no blob |
| Storage.OrderSucceeds | act/artifactcache/storage.go:68-78 | The rename pass succeeds exactly on a list of distinct staged blocks |
| Storage.OrderMoves | act/artifactcache/storage.go:68-78 | Part j becomes listed block j, listed blocks are gone, every other file is as it was |
| Storage.BlockListCommit | act/artifactcache/storage.go:60-106 | After the pass, commit yields the listed blocks in list order, then ordered parts beyond the list; no unlisted block |
| Storage.BlockListIsConcatenation | act/artifactcache/storage.go:60-106 | What a block list is committed as, for any declared size; it is its concatenation if and only if no earlier part at or beyond its length holds a byte and its size is declared or unknown, else the left-over bytes follow it or the upload is lost |
| Storage.BlobStore.Write | act/artifactcache/storage.go:42-58 | Replaces one part by its body, every other file unchanged |
| Storage.BlobStore.WriteBlock | act/artifactcache/storage.go:60-66 | Replaces one staged block, every other file unchanged |
| Storage.BlobStore.OrderBlocks | act/artifactcache/storage.go:68-78 | The loop of renames is the pass above, up to the first block that is not staged |
| Storage.BlobStore.Assemble | act/artifactcache/storage.go:110-139 | Moving a single part agrees with copying: the blob is the named parts' concatenation |
| Storage.BlobStore.Commit | act/artifactcache/storage.go:80-106 | The final blob and the result, with the staged files gone; a size that differs removes the blob |
| Storage.BlobStore.Remove | act/artifactcache/storage.go:146-149 | Removes an id's blob and staged files and nothing else |
| CacheLookup.LookupIsOptimal | act/artifactcache/handler.go:726-784 | A lookup misses exactly when no key is a prefix of an eligible entry's key; else it may return exactly the entries that answer the earliest matching key, exactly where that is possible, and were created last |
| CacheModel.FindsEligible | act/artifactcache/handler.go:726-784 | Whatever a lookup returns is complete and of the asked repository and version |
| CacheGc.RecentSurvives | act/artifactcache/handler.go:852-938 | A collection keeps any entry used within five minutes and created within thirty days, with its blob and staged files |
| CacheGc.UsedSurvives | act/artifactcache/handler.go:802-821 | An upload to a reservation, or a download, keeps the entry with its files from any collection of the next five minutes, if it is no older than thirty days |
| CacheGc.CollectionRemoves | act/artifactcache/handler.go:852-938 | Exactly which entries the four passes remove |
| CacheGc.CollectionTakesPlace | act/artifactcache/handler.go:830-939 | A collection takes place unless the last one was less than an hour ago; then it removes, with their files, incomplete entries unused for five minutes, entries unused for seven days or created thirty days ago, and complete ones unused for five minutes that are not the latest of their key, and no others |
| CacheGc.EvictionPreservesLookups | act/artifactcache/handler.go:899-938 | The same-key pass changes no lookup's hit or miss, nor the creation time of what it finds |
| CacheInvariant.StepKeeps | act/artifactcache/handler.go:427-537 | Any request, collection or blob loss keeps: ids equal their keys and are not above the sequence, a blob only of a complete entry and of its recorded size, no entry reset, no blob changed |
| CacheInvariant.RunKeeps | act/artifactcache/handler.go:786-821 | Over any run ids are not reused, complete entries stay so, and no blob's bytes change or come back |
| CacheIsolation.TargetedStep | act/artifactcache/handler.go:427-537 | A request on an id changes that id's entry and files only, and answers from them only |
| CacheIsolation.OthersStep | act/artifactcache/handler_v2.go:54-218 | A request of another repository leaves what a repository has as it is |
| CacheIsolation.OwnStep | act/artifactcache/handler.go:380-537 | A repository's own request does and answers the same on its entries alone, collections included |
| CacheIsolation.RepositoriesAreIndependent | act/artifactcache/handler.go:830-939 | Deleting all requests of other repositories from any run leaves a run that answers a repository the same, up to renumbering of ids and how a refusal is worded |
| CacheIsolation.OthersDoNotShow | act/artifactcache/handler.go:380-537 | Two runs in which a repository does the same answer it the same |
| CacheIsolation.OnlyForbiddenShows | act/artifactcache/handler.go:446-454 | An answer differs from the one a repository would get alone if and only if a v1 upload or commit names an id reserved by another repository |
| CacheIsolation.ForbiddenHappens | act/artifactcache/handler.go:446-454 | A run in which that refusal occurs |
| CacheUpload.OpenRun | act/artifactcache/handler.go:427-472 | Between reservation and commit the staged files are what the entry's own uploads make them, whoever else does what |
| CacheUpload.UploadedArchiveIsServed | act/artifactcache/handler.go:475-537 | v1: an archive uploaded in parts while other requests run is committed, and is then the entry's blob, unless a wrong size was declared |
| CacheUpload.StagedIsFinalized | act/artifactcache/handler_v2.go:104-141 | v2: whatever an open reservation's own uploads staged, with any other requests in between, is what finalize serves if its size is declared or unknown; otherwise finalize fails and the upload is lost |
| CacheUpload.FinalizeTakes | act/artifactcache/handler_v2.go:117-125 | Finalize is sure to take a reservation if and only if it matches and every other of the same repository, key and version was touched before it |
| CacheUpload.BlockListIsServed | act/artifactcache/handler_v2.go:179-218 | v2: whatever else runs before, between and after, and however often it is sent again, a block list is answered and finalized as its blocks in list order, followed by what is left beyond them, which is nothing exactly when no byte is |
| CacheUpload.RepeatedListFails | act/artifactcache/storage.go:68-78 | A block list sent again is refused and leaves what is staged as it is |
| CacheUpload.BlobIsServed | act/artifactcache/handler_v2.go:179-218 | v2: a single upload, retried at will, is finalized as its last body |
| CacheUpload.LeftoverLosesUpload | act/artifactcache/storage.go:68-106 | A run in which a shorter second block list of the declared size is lost to a part the first one left |
| CacheUpload.DownloadsAreUnchanged | act/artifactcache/handler.go:544-553 | Any later download, in any run, gets those bytes or finds the blob gone |
| CacheSave.ReserveOpens | act/artifactcache/handler.go:397-424 | v1: a reservation is granted under a new id, for exactly that repository, key and version, with the declared size or, for zero, an unknown one; nothing else changes |
| CacheSave.CreateOpens | act/artifactcache/handler_v2.go:54-102 | v2: a create with a key and a version is refused if and only if a complete entry has exactly that repository, key and version; else it reserves as above |
| CacheSave.LookupTakes | act/artifactcache/handler.go:726-784 | A lookup whose first key is a complete entry's own is sure to find it if and only if every other complete one of its repository, key and version was created before it |
| CacheSave.FindAnswers | act/artifactcache/handler.go:349-395 | A hit is the optimal entry with its key; a miss means that no key matches, or that the optimal entry has lost its blob and is dropped |
| CacheSave.SavedIsRestored | act/artifactcache/handler.go:349-553 | Save and restore, v1 and v2: an entry reserved under a key, written while any requests run, and completed is what a lookup for the key answers after any further run, and its download is what was written, as long as it is there with its blob and is the latest of its key |
| CacheHandler.Handler.FindOne | act/artifactcache/handler.go:765-784 | Returns a record of highest rank among those that match, or none if none does |
| CacheHandler.Handler.FindCache | act/artifactcache/handler.go:726-763 | The loop over keys returns an optimal entry, or none only if no key matches |
| CacheHandler.Handler.InsertCache | act/artifactcache/handler.go:786-800 | A new entry under the next id, nothing else changed |
| CacheHandler.Handler.TouchCache | act/artifactcache/handler.go:802-821 | Stamps an entry as used; refuses a complete one when asked to |
| CacheHandler.Handler.CommitCache | act/artifactcache/handler.go:522-537 | The blob is assembled and the entry completed with its size, or neither |
| CacheHandler.Handler.Find | act/artifactcache/handler.go:349-395 | Is one step of the model: hit, miss, or miss that drops an entry without a blob |
| CacheHandler.Handler.Reserve | act/artifactcache/handler.go:397-424 | Is one step of the model, which `CacheSave.ReserveOpens` spells out |
| CacheHandler.Handler.Upload | act/artifactcache/handler.go:427-472 | Is one step of the model, each refusal in its order |
| CacheHandler.Handler.Commit | act/artifactcache/handler.go:475-520 | Is one step of the model |
| CacheHandler.Handler.Get | act/artifactcache/handler.go:544-553 | Is one step of the model |
| CacheHandler.Handler.CreateEntry | act/artifactcache/handler_v2.go:54-102 | Is one step of the model, which `CacheSave.CreateOpens` spells out |
| CacheHandler.Handler.FinalizeUpload | act/artifactcache/handler_v2.go:104-141 | Is one step of the model |
| CacheHandler.Handler.UploadBlob | act/artifactcache/handler_v2.go:179-218 | Is one step of the model, for a whole blob |
| CacheHandler.Handler.UploadBlock | act/artifactcache/handler_v2.go:179-218 | Is one step of the model, for one block |
| CacheHandler.Handler.UploadBlockList | act/artifactcache/handler_v2.go:179-218 | Is one step of the model, for the block list |
| CacheHandler.Handler.RemoveSuperseded | act/artifactcache/handler.go:899-938 | The loop over groups removes exactly the superseded entries, for some choice of latest ones |
| CacheHandler.Handler.GcCache | act/artifactcache/handler.go:830-939 | Is one collection step of the model |
| ParallelExecutor.StepInv | act/common/executor.go:88-142 | Every step of any goroutine keeps: each executor queued, held or reported exactly once, and queued + running + reported + collected equal to what was sent |
| ParallelExecutor.SendsNeverBlock | act/common/executor.go:89-126 | No send on either channel ever blocks |
| ParallelExecutor.NoDeadlock | act/common/executor.go:99-135 | Until the call returns some goroutine can move |
| ParallelExecutor.RunningBounded | act/common/executor.go:92-99 | No more executors run than there are workers |
| ParallelExecutor.StepsCountDown | act/common/executor.go:99-135 | Every program step leaves exactly one fewer to go, so the call ends |
| ParallelExecutor.EveryRun | act/common/executor.go:81-142 | Over every interleaving: at most 5n + 2 + max(1, parallel) steps, no deadlock before the end, never more than max(1, parallel) running, no executor started twice |
| ParallelExecutor.WholeCall | act/common/executor.go:128-140 | At the end every executor ran once; the result is nil exactly when all outcomes were and the context is live, else the context's error or the first collected |
| ParallelExecutor.Execute | act/common/executor.go:88-142 | Under any scheduler, choosing by all steps so far, the call returns after every executor ran and reported once; nil exactly when all outcomes are and the context is live, else the context's error or the first collected |
| Executors.PipelineThen | act/common/executor.go:144-155 | One more executor in a pipeline runs exactly when all before succeeded and the context was live after each |
| Executors.NewPipelineExecutor | act/common/executor.go:40-55 | The nested closures run the executors front to back, up to the first error or ended context |
| JobOrder.PipelineInvokes | act/common/executor.go:40-55 | A pipeline runs a prefix of its executors, all of them unless it returns an error |
| JobOrder.MainInvoked | act/runner/job_executor.go:358-386 | Every main executor is invoked once, in order, wherever the context ends |
| JobOrder.PostsInvoked | act/runner/job_executor.go:211-228 | Every post executor is invoked once, in reverse, whatever fails |
| JobOrder.JobRunsInOrder | act/runner/job_executor.go:130-300 | For any steps, errors and interruption: only the start when it fails or the context has ended by then; else a prefix of the pre steps, all main steps in order, all post steps in reverse, completed hook, the container's stop where due, outputs, close |
| JobOrder.ContainerStoppedIff | act/runner/job_executor.go:240-268 | The container is stopped if and only if it is always to be, no job error is kept, or the job was cancelled |
| JobStatus.RunStepRising | act/runner/step.go:70-233 | A step's result never lowers the job status, and its body starts only under a condition that allows it |
| JobStatus.StatusOnlyRises | act/runner/run_context.go:1280-1296 | Over any whole run in which no step that can run while the job succeeds has a later step of its id, the status seen by each action rises along success, failure, cancelled |
| JobStatus.SuccessStepsStayOff | act/runner/step.go:288-304 | Once anything has started under a failed or cancelled job, no step that needs success executes |
| JobStatus.NextAnchored | act/runner/step.go:79-104 | A main step raises the status, if anything, and leaves no failure that a later step will write over |
| JobStatus.FailedStepStopsSuccess | act/runner/job_executor.go:358-386 | After a main step has concluded in failure, or a flag is set, no later main step executes that needs success or names no status function |
| JobIds.FailuresKeptRise | act/runner/run_context.go:1280-1296 | Whatever its conditions, a job's status rises in every run when no step that can run while the job succeeds has a later step of its id |
| JobIds.RisesIffFailuresKept | act/runner/step.go:84-86 | For conditions that can be evaluated and are steady at success: the status rises in every whole run, and over the main steps of every run, if and only if that is so |
| JobIds.RisesIffDistinctIds | act/runner/step.go:84-86 | Where every step runs while the job succeeds, if and only if the ids are distinct |
| JobIds.FailureStepMayShare | act/runner/step.go:84-86 | A step that never runs at success may share its id with a later one |
| JobIds.SharedIdForgets | act/runner/job_executor.go:63-73 | When a step that runs at success shares its id with a later one, a cancellation error on a live context fails it and is then forgotten |
| JobIds.SharedIdForgetsRun | act/runner/job_executor.go:63-73 | And it stays so to the end of the whole run |
| JobIds.DistinctIdsSpelledOut | act/runner/job_executor.go:172-174 | Ids are distinct exactly when those given are, and none is the index standing for a missing one |
| JobIds.IndexClash | act/runner/job_executor.go:172-174 | A given id can equal the index that stands for another step's missing one |
| JobInterrupt.MainStepsDetach | act/runner/job_executor.go:358-386 | Main steps start under the job's context right after a look that found it live; from the look that finds it ended, all start under one fresh context, live when made, with the interrupt in their status; an end by the last look, after the last step, is recorded too |
| JobInterrupt.PostsDetach | act/runner/job_executor.go:289-324 | Post steps get a fresh live context exactly when the job's has ended by the second look; recorded exactly when it had by the first |
| JobInterrupt.PostStepsUnder | act/runner/job_executor.go:211-241 | All post steps and the hook start under that one context, and recorded interrupts show to all of them |
| JobInterrupt.InterruptShowsToPosts | act/runner/job_executor.go:289-297 | An interrupt seen before the post steps: cancelled() holds for each after a cancellation, success() for none |
| JobInterrupt.StopIsDetached | act/runner/job_executor.go:248-268 | The container is stopped under a live context of its own, whatever has become of the post steps' |
| JobContinue.StepComesTo | act/runner/step.go:70-234 | By what a step's condition says and how its body ends: its result, the events, and what it does to the job. A failed body concludes in success and leaves the job as it was under continue-on-error, and otherwise fails both; a false condition skips the step |
| JobContinue.StepNotAsked | act/runner/job_executor.go:199-209 | A step whose action could not be prepared, or whose context ended by then, keeps its result, and the reason fails or cancels the job |
| JobContinue.MainUnharmed | act/runner/job_executor.go:199-209 | Where only bodies fail, each to be continued after, a main step of a succeeding job leaves it succeeding, and runs its body if its condition holds at success |
| JobContinue.ContinuedJobSucceeds | act/runner/step.go:186-209 | A whole job in which only bodies fail, each to be continued after, under a context that outlives it: the job succeeds, every action sees it succeed, and no step that is to run at success is left out |
| JobContinue.WrappersReport | act/runner/job_executor.go:187-223 | A pre or post step's error fails the job and is kept as its error, unless it is a cancellation; the end of the context does the same or cancels the job |
| JobContinue.HooksReport | act/runner/job_executor.go:95-99 | The error of a hook or of the download of actions likewise |
| JobErrors.JobTells | act/runner/job_executor.go:130-348 | The job's executor returns no error only if no start, hook, pre step, post step, stop, output or close ended in one, and, under a context that outlives it, if none did |
| JobBuilder.RunMainSteps | act/runner/job_executor.go:358-371 | The loop over the main steps does what the proofs above are about |
| JobBuilder.RunMainStepsAfterInterrupt | act/runner/job_executor.go:377-386 | The remaining steps run under one fresh context after the flag is set |
| JobBuilder.NewStepsExecutor | act/runner/job_executor.go:337-348 | Main steps run whatever became of the pre steps, whose error comes first |
| JobBuilder.NewJobExecutor | act/runner/job_executor.go:130-300 | The nested chains built by the loops run the job described, for every context and state; what its steps leave behind is `JobContinue.StepComesTo` |
| Base64.DecodeEncode | act/runner/logger.go:202-214 | Decoding inverts the encoding (section 4 of RFC 4648) |
| Base64.EncodeConcat | act/runner/logger.go:202-214 | Whole groups encode on their own |
| Base64.SextetsAreBits | act/runner/logger.go:202-214 | Four characters stand for the twenty-four bits of three bytes in order |
| Base64.ShiftEncodeLength | act/runner/logger.go:186-214 | Behind a shift, a value leaves a fragment if and only if both together are at least ten bytes, and how long it is |
| Base64.ShiftEncodeIsMiddle | act/runner/logger.go:202-214 | The fragment kept encodes bytes of the secret only |
| Base64.ShiftedFragmentOccurs | act/runner/logger.go:186-214 | For shift 1 or 2 and a secret of at least ten bytes with it, the fragment, of that length, stands in the encoding of every payload that holds the secret at that alignment |
| Base64.AlignedFormOccurs | act/runner/logger.go:190-200 | The unshifted form stands at its aligned position exactly when the secret fills its last group or ends the payload |
| Base64.AlignedFormCanBeMissing | act/runner/logger.go:190-200 | A secret and a payload in which the unshifted form stands nowhere |
| MaskCache.RefreshAgrees | act/runner/logger.go:278-329 | The cached pair list after a log call is the one built from scratch, whatever the cache was filled for |
| MaskCache.CacheIsTransparent | act/runner/logger.go:278-329 | Over every interleaving of log calls, appended masks and switches between slices, each line is masked with the pairs built from scratch |
| MaskCache.SecretMasks | act/runner/logger.go:243-274 | The patterns gained with a secret are exactly its trimmed lines, as they are and as command data, its base64 at every alignment that leaves any, and its other encodings |
| MaskCache.PatternsAreForms | act/runner/logger.go:243-329 | Whatever was logged before, the patterns of a log line are exactly those forms of the job's secrets and of the masks added so far |
| MaskCache.LoggedPayloadIsMasked | act/runner/logger.go:243-329 | For a job secret or an added mask, the pairs of a log line mask the form that stands, at a given place, in the encoding of any payload that holds it: at a group's start, if it fills its last group or ends the payload; elsewhere, if it is at least ten bytes with the shift |
| MaskCache.TrimmedIsALine | act/runner/logger.go:243-258 | A trimmed value without line breaks is, trimmed, one of the lines of the value around it, for all Unicode white space |
| Replacer.ScanIsWhole | act/runner/logger.go:317-325 | What the scan copies and what it replaces are together the line |
| Replacer.NoneSurvives | act/runner/logger.go:317-325 | Every occurrence of a masked pattern in a line begins within something that is replaced |
| Replacer.KeptHoldsNoPattern | act/runner/logger.go:317-325 | No stretch that is copied whole holds a masked pattern |
| Replacer.OccurrenceReplacedIff | act/runner/logger.go:317-325 | An occurrence is replaced by its own stars if and only if nothing replaced reaches into it from before and no earlier pair matches there |
| Replacer.OnlyStars | act/runner/logger.go:243-274 | Everything replaced is a masked pattern and becomes stars |
| Replacer.LoggedLineIsMasked | act/runner/logger.go:278-329 | In a line with the base64 of a payload that holds a job secret or an added mask, the form of the secret is masked where it begins |
| Replacer.NothingLeaks | act/runner/logger.go:317-325 | Whatever the line and whatever else is masked, its masked form holds a masked pattern nowhere, unless that begins or ends with a star or has three in a row |
| Replacer.LoggedLineHoldsNoForm | act/runner/logger.go:278-329 | No form of a job secret or an added mask, save those, is in any logged line |
| Replacer.LeaksIff | act/runner/logger.go:317-325 | A line in which the pattern reappears is there if and only if the pattern is such a one |
| MaskCache.MaskSlice.AddMask | act/runner/run_context.go:152-154 | Appends to the mask slice |
| MaskCache.ValueMasker.PairsFor | act/runner/logger.go:292-325 | The patterns for a line are those of the secrets and all masks now in the slice |
| MaskCache.GrowthKeepsValid | act/runner/logger.go:286-288 | Masks appended behind the cache's back leave it usable |
| EnvFile.ParseEnvFile | act/container/parse_env_file.go:47-85 | The nested scanner loops merge the entries in order, up to the first malformed one |
| EnvFile.ParsePrinted | act/container/parse_env_file.go:47-80 | A printed entry is read as one entry, whatever follows it |
| EnvFile.ParsePrintedFile | act/container/parse_env_file.go:47-85 | A printed file parses without error to the last value read back for each name |
| EnvFile.SurvivesIff | act/container/parse_env_file.go:60-72 | A value is read back as it was if and only if no line of it ends in a carriage return and a heredoc value does not begin with a line feed |
| EnvFile.RoundTrip | act/container/parse_env_file.go:47-85 | Printing and parsing any list of such entries gives the last-wins map |
| EnvFile.BlankIsSkipped | act/container/parse_env_file.go:47-55 | A line of white space between two entries changes nothing |
| EnvFile.MalformedStops | act/container/parse_env_file.go:78-80 | A line that is neither blank nor an entry ends the parse with its error, the entries before it kept |
| EnvFile.UnclosedStops | act/container/parse_env_file.go:60-77 | So does a heredoc whose delimiter does not come |
| EnvFile.ExportedIsRead | act/runner/hashfiles/index.js:274-293 | Under a name that is cut in the right place, what exportVariable writes is read as one entry whatever follows, with the value unchanged exactly when it survives |
| EnvFile.ExportReadIff | act/runner/hashfiles/index.js:274-293 | Whatever exportVariable writes is read back as meant if and only if the name has no equals sign, line feed or `<<` and no `<` at its end, and the value survives |
| EnvFile.LeadingFeedIsLost | act/container/parse_env_file.go:60-72 | An exported value that comes back without its first line feed |
| EnvFile.EqualsInNameIsMisread | act/container/parse_env_file.go:56-59 | An exported name that is read as another |
| Commands.SequentialDataEscape | act/runner/hashfiles/index.js:192-197 | The toolkit's passes escape data as the runner's one-pass replacer does |
| Commands.EscapePropertyCons | act/runner/hashfiles/index.js:198-205 | Five passes escape each character of a property on its own |
| Commands.DataRoundTrip | act/runner/command.go:204-219 | Unescaping inverts the runner's escape, for every string |
| Commands.ToolkitDataRoundTrip | act/runner/hashfiles/index.js:192-197 | And the toolkit's |
| Commands.PropertyRoundTrip | act/runner/command.go:221-223 | Unescaping inverts the toolkit's property escape, for every string |
| Commands.FindSubmatch | act/runner/command.go:20-30 | The search returns the match greedy matching prefers: the longest name, then the longest properties; none only if nothing matches |
| Commands.MatchIsWholeLine | act/runner/command.go:20-30 | A match divides the line into the pattern's groups |
| Commands.ParseKeyValuePairs | act/runner/command.go:192-202 | The loop keeps the pieces that are one key and one value, the last of each key |
| Commands.ToString | act/runner/hashfiles/index.js:158-191 | The loop over properties prints those with a value, separated by commas |
| Commands.ListReadsIff | act/runner/command.go:192-202 | A printed property list is read back exactly when keys have no comma or equals sign and values no equals sign |
| Commands.CutsAtLayout | act/runner/command.go:21-30 | The pattern cuts a printed line where it was joined exactly when name and list are fit and the data has no other cut |
| Commands.CommandRoundTrip | act/runner/command.go:25-38 | Whatever the toolkit prints is received with its name, properties and message if and only if the name has no space, some property is printed if there are any, those printed are plain, and the message is not ambiguous |
| Commands.EmptyPropertiesReceivedIff | act/runner/hashfiles/index.js:166-186 | A command whose properties are all empty, with a plain name, is received at all if and only if its message is ambiguous, and never as meant |
| Commands.DoubleColonIsMisread | act/runner/command.go:21-30 | A printed command that is received as another |
| CommandForms.BracketLineReadIff | act/runner/command.go:21-38 | A line `##[name list]data` is read as its name, its list split at semicolons, and its data if and only if the data has no bracket at which the pattern cuts instead |
| CommandForms.SemicolonListRead | act/runner/command.go:192-202 | Properties joined by semicolons are read back, a later one overriding |
| CommandForms.BracketLineReceived | act/runner/command.go:25-38 | Such a line with plain properties and data is received as what it names |
| LineWriting.LinesPartition | act/common/line_writer.go:42-71 | The lines handed on concatenate to the stream |
| LineWriting.LinesAreSplit | act/common/line_writer.go:42-71 | Each line ends at its first line feed; only the last may lack one |
| LineWriting.SplitIsLines | act/common/line_writer.go:42-71 | The division into such lines is unique |
| LineWriting.ChopAppend | act/common/line_writer.go:42-60 | Text cut anywhere has the first part's lines, then those of what it leaves and the second |
| LineWriting.LineWriter.Handle | act/common/line_writer.go:73-80 | Handlers run in order up to the first that stops the line |
| LineWriting.LineWriter.Write | act/common/line_writer.go:42-60 | All bytes are taken: complete lines handled, the rest buffered |
| LineWriting.LineWriter.Flush | act/common/line_writer.go:65-71 | What is buffered is handled as a last line, once |
| LineWriting.CopyAndFlush | act/common/line_writer.go:34-71 | For any chunks and a flush, the handlers see the lines of the bytes |
| Output.RunContext.AddPath | act/runner/command.go:181-190 | The path goes to the front, once |
| Output.RecentFirst | act/runner/command.go:181-190 | Paths added one by one stand once each, the most recently added first |
| Output.OlderBehind | act/runner/command.go:181-190 | Behind them stand the paths from before that were not added again, in their order |
| Output.RunContext.SetEnv | act/runner/command.go:142-160 | Sets the name in both environments and nothing else |
| Output.RunContext.SetOutput | act/runner/command.go:162-179 | Sets the mapped output of a registered step, else nothing |
| Output.RunContext.SaveState | act/runner/command.go:232-245 | Sets one state value of the current step, if there is one |
| Output.RunContext.RefuseUnsecureCommand | act/runner/command.go:101-118 | Refuses without the opt-in and keeps the first refusal |
| Output.RunContext.TakeUnsecureCommandError | act/runner/command.go:134-140 | Returns and clears the refusal |
| Output.CommandHandler.Handle | act/runner/command.go:40-94 | One line is one step of the stop/resume machine, and handlers after it always see the line; what a whole output comes to is `OutputEffects.OutputComesTo` |
| Output.StoppedRegionsAreInert | act/runner/command.go:49-61 | The effects are those of the lines outside stopped regions, each on its own |
| Output.RegionsCutOut | act/runner/command.go:49-81 | Cutting every stopped region out of the stream of bytes leaves its effects |
| Output.StepOutput | act/runner/job_executor.go:655-670 | A step's output in any chunks: effects a function of its bytes, and every byte in the raw log, in whole lines |
| Output.WithoutOptIn | act/runner/command.go:98-126 | Without the opt-in no output sets environment or path or opts in, and a refusal is left exactly when some line outside stopped regions asked |
| OutputEffects.OutputComesTo | act/runner/command.go:40-94 | What any output comes to, told from its commands outside stopped regions: the arguments of add-mask in order; for every variable of both environments, output of a registered step and state value the argument of the last command that set it and was let through; the paths let through; the first refusal |
| OutputEffects.PrintedMaskIsAdded | act/runner/command.go:72-79 | A value printed with add-mask outside stopped regions, unless it is one that is cut elsewhere, is among the masks |
| OutputEffects.OptedInIff | act/runner/command.go:120-126 | Environment and path may be set exactly when the variable is truthy in one of three environments |
| OutputEffects.TruthyIff | act/runner/command.go:128-131 | A truthy value is the word true, in any casing, among white space |
| ServiceNames.CandidatesDiffer | act/container/kubernetes/pod_spec.go:161-190 | Distinct numbers give distinct candidates, even after truncation |
| ServiceNames.CandidateIsLabel | act/container/kubernetes/pod_spec.go:175-190 | Every candidate is a label: at most 63 lower-case alphanumerics and dashes, alphanumeric at both ends (section 2.1 of RFC 1123) |
| ServiceNames.ShortNameIsSpelled | act/container/kubernetes/pod_spec.go:175-190 | A short id between letters or digits is spelled character by character behind "svc-": label characters as they are, capitals as small letters, anything else as a dash |
| ServiceNames.LabelIsKept | act/container/kubernetes/pod_spec.go:175-190 | An id that is a label of at most 59 characters keeps its name behind "svc-" |
| ServiceNames.NothingKept | act/container/kubernetes/pod_spec.go:175-181 | An id without a letter or digit is named "svc-service" |
| ServiceNames.CandidateIsNumbered | act/container/kubernetes/pod_spec.go:164-168 | A base that leaves room for a number is kept in front of it |
| ServiceNames.TakenBound | act/container/kubernetes/pod_spec.go:164-170 | No more candidates can be taken than names are, so the search ends |
| ServiceNames.FirstFree | act/container/kubernetes/pod_spec.go:164-170 | The search returns the first candidate not in use |
| ServiceNames.AssignServiceContainerNames | act/container/kubernetes/pod_spec.go:161-173 | Every service gets a label in place, pairwise distinct, none "job", each the first free in its turn |
| Glob.MatchOneLoop | act/runner/hashfiles/index.js:3869-4021 | The loop with its two cursors and its trial of every cut at a globstar hits exactly when the path can be divided among the pattern's segments |
| Glob.MatchIffAligned | act/runner/hashfiles/index.js:3869-4021 | A path matches if and only if it divides into one segment for each literal or magic one, which accepts it, and any number without dots for each globstar, at least one for a last one; an empty last segment, and in a partial match the rest of the pattern, may be left over |
| Glob.MatchPrefix | act/runner/hashfiles/index.js:3869-4021 | If a pattern matches a path it partially matches every non-empty prefix |
| Glob.MatchIsPartial | act/runner/hashfiles/index.js:3869-4021 | A match is also a partial match |
| GlobWalk.MatchesIffFits | act/runner/hashfiles/index.js:1837-1872 | Below the root a pattern matches a path exactly if the path divides among its segments, globstars taking any number of names, the slashes at either end making no difference |
| GlobWalk.PartialMatchIff | act/runner/hashfiles/index.js:1864-1872 | A directory below the root may be descended into for a pattern exactly if some beginning of the pattern fits it |
| GlobWalk.GlobstarTakesNothing | act/runner/hashfiles/index.js:3919-3944 | A globstar may take nothing, wherever it stands |
| GlobWalk.RightBelowMatches | act/runner/hashfiles/index.js:3919-3944 | `/dir/**/file` matches `/dir/file` |
| GlobWalk.MatchAllIsChosen | act/runner/hashfiles/index.js:1739-1751 | A file or directory is matched if and only if some pattern covers it and no negated one after it does; one with a trailing slash covers no files |
| GlobWalk.SearchedIsChosen | act/runner/hashfiles/index.js:1233-1242 | With implicit descendants, a list covers what lies at or below anything its patterns fit, unless a later negated one does |
| GlobWalk.AncestorsReach | act/runner/hashfiles/index.js:1755-1763 | Every directory above something matched may be descended into |
| GlobWalk.PruningLosesNothing | act/runner/hashfiles/index.js:1264-1299 | The pruned walk yields what the unpruned one does, once and in order |
| GlobWalk.GlobGenerator | act/runner/hashfiles/index.js:1230-1299 | The stack loop yields everything matched below its starting points |
| GlobWalk.GetSearchPaths | act/runner/hashfiles/index.js:1695-1735 | The starting points have none below another, and cover every candidate |
| GlobWalk.StartIff | act/runner/hashfiles/index.js:1695-1735 | The walk starts at the search paths of the patterns that are not negated, save those below another |
| GlobWalk.MatchesBelowSearch | act/runner/hashfiles/index.js:1837-1872 | A pattern matches only at or below its search path |
| GlobWalk.ThroughFileIff | act/runner/hashfiles/index.js:1246-1259 | A path runs through a file exactly when a proper ancestor of it is one |
| GlobWalk.StartStack | act/runner/hashfiles/index.js:1243-1261 | A starting point that is missing is skipped, one that runs through a file fails the search |
| GlobWalk.FindAll | act/runner/hashfiles/index.js:1230-1303 | The search fails if and only if some starting point runs through a file; else it yields what is wanted below its starting points, and for well-formed patterns a path of the tree exactly when the patterns choose it, said without the matcher |
| GlobWalk.Search | act/runner/hashfiles/index.js:1230-1242 | Of well-formed patterns with their implicit descendants it yields exactly the files and directories at or below what some pattern fits and no later negated one does |
| GlobWalk.FileOnTheWayFails | act/runner/hashfiles/index.js:1246-1259 | A search that fails although another pattern matches a file |
| GlobWalk.IllFormedMisses | act/runner/hashfiles/index.js:1906-1964 | A pattern read in two ways whose match the search misses |

## Left out

- HTTP routing, credentials, signatures and their expiry, JSON and XML: a request is its decoded content, and a signed id one that was issued.
- The text of Content-Range headers: an upload carries what it parses to, if it does.
- Requests that overlap: the handlers close the table between a check and the write after it, so every cache claim is about requests one after another.
- The table library: a map with an id sequence; which of several equally ranked records a query returns is left open. A query for a key whose pattern does not compile is not modelled.
- File-system errors and partial writes in the blob store; directories are maps, listings sorted by name.
- SHA-256 in block names: taken as injective.
- The order of entries a garbage collection visits, and the failure of a single deletion.
- WholeCall: leaves out the call with no executors, which only returns the context's error. Panics inside executors are outcomes like other errors.
- NewJobExecutor: the run context of a job is a value handed from executor to executor, not an object that closures share; nothing aliases it.
- RisesIffFailuresKept: for conditions that cannot be evaluated or change over time at success the condition is sufficient (`FailuresKeptRise`) but need not be necessary.
- What pre and post steps' executors do inside, their own conditions among it; they are actions with any outcome.
- Setting the job's result and outputs, summaries, continue-on-error of jobs, matrix and reusable workflows.
- MainStepsDetach: moments are ordered, but five minutes are not measured, so a fresh context may expire at any moment after it is made.
- The expression evaluator: a condition is a function of status and moment, with a flag for the default status check.
- Scan: empty patterns are passed over; no encoder of the source yields one. JSON and URL encoders of secrets and the command-data escape in the mask list are functions about which nothing is assumed.
- FindAll: that the two readings of a segment agree is assumed where all matches are promised (`WellFormed`); it holds of literal segments, not of `[!]` (`IllFormedMisses`).
- Search: says nothing of the root itself, nor of paths through a name that is empty, `.` or `..`, which no listing holds.
- Byte order marks, the 16 MiB line limit and line ends other than a line feed in env files.
- Values that the toolkit converts to text before printing; file commands' checks that the file exists.
- The runner's log lines besides the raw log.
- AssignServiceContainerNames: the number of services is bounded by what an array can hold.
- Symbolic links and cycles, Windows paths, brace expansion and the translation of a pattern segment to a regular expression; a segment is a predicate on a name.
- Restoring the log writer after a step and the step logger.
