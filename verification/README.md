# Right Hire: a verified model

Right Hire screens resumes. A recruiter describes a job, uploads a sheet of candidates, and workers judge each
candidate by parsing the resume, filtering, matching, asking a language model, and aggregating a score into a
verdict (Fit, Maybe, Reject). This project models the parts of the service whose correctness is not visible in any
one function, and proves what they are meant to guarantee:

- **The cache key** (`JsonText`, `JsonFormat`, `JsonLexing`, `JsonDecoding`, `JsonEquality`, `CacheKey`). The key hashes a resume
  text followed by three JSON object texts, with nothing in between. JSON texts follow sections 4 and 7 of RFC 8259
  as Python's `json.dumps(sort_keys=True)` writes them. The concatenation identifies its four parts: no object text
  is a proper suffix of another, because a split outside a string breaks the brace depth and a split inside a string
  leaves two readings that disagree on being inside a string until the end.
- **The verdict cache** (`Jobs`, `VerdictCache`, `UnsafeUploads`, `CachedPipeline`, `Worker`). Workers interleave commit
  by commit, jobs are created, parsed late and edited, resumes are replaced, entries expire, workers die; every verdict
  written or cached is the one a fresh evaluation gives, as long as no resume is replaced too late.
- **The life of a candidate** (`Lifecycle`, `Requests`, `StatusAgreement`, `SplitRetry`, `Watchdog`, `Sweeping`,
  `Ledger`, `Service`). Requests, worker commits and the watchdog as steps; status and shown verdict agree, credits are
  conserved, requeues are bounded, and the watchdog gives up. `Service` runs the same operations as statements over
  stored rows and proves each equal to its specification.
- **The two limiters** (`RateLimiter`, `SignupLimiter`), over the whole history of calls.
- **Scoring and statistics** (`Rounding`, `Scoring`, `Matching`, `Pipeline`, `Statistics`): exact reals with
  half-to-even decimal rounding.
- **Two representations of one thing** (`SheetIngest`, `JobWizard`): two ways to read a sheet, and skill lists against
  editable rows.

## Reading the model

A request handler is one step of `Lifecycle.Step`; a worker takes a job from the queue and makes one step per commit, so
several workers may be at work on the same candidate at once, and each may die anywhere. The clock of `RateLimiter` returns strictly increasing readings, and a reading
after a sleep is strictly later than the end of the sleep; without that an entry exactly 60 seconds old, which the
deque keeps, would let one call too many through. Creation times of evaluations are strictly increasing.

Any number of sweeps may run at once, and a sweep may die between two rounds or inside one, after it has put a candidate
on the queue and before it has committed that. In `VerdictCache` the name of a resume file stands for its content: an
upload that reuses the path of the old file counts as a new name, and a worker that has loaded the old row is taken to
read the old content. No stored job has an empty profile
(`CachedPipeline.EveryJobIsProper`), so the branch that parses the description while a candidate is judged
(`app/workers/tasks.py:210-214`) is never taken; it would be unsafe, as the description is not part of the key
(`CachedPipeline.EmptyProfileIsAmbiguous`).

The specification functions follow the code branch by branch. Beside each of them a law says in plain terms what it
computes, for all inputs and without that function's own helpers (`SheetIngest.ParsedRows`, `Pipeline.JudgedEvaluation`,
`Requests.UploadContract`, `Scoring.ScoreArithmetic` and the like).

Four places where the code does not do what one would expect of it, each with a failing run from the initial state and
an exact condition:

- `upload_candidate_resume` replaces the resume and keeps the parsed profile of the old one
  (`app/api/ingest.py:480-483`). The next worker judges the new text by the old profile and caches that verdict under
  the new text (`CachedPipeline.UploadSpoilsCacheFromTheStart`). For a job that tells two resumes apart, all later
  verdicts are right, whatever the file and the run, exactly when the row has no profile yet and every worker that
  holds the candidate has found no resume to work on (`UnsafeUploads.UploadIsSafeIff`): a worker that has settled an
  older text, or is about to, commits that text's profile after the upload.
- `retry_candidate` and `retry_failed_candidates` set `pending` in one commit and, where the queue refuses, `failed` in
  another (`app/api/ingest.py:149-157`, `184-201`). A job left over from an earlier attempt may finish in between, and the
  candidate is then failed and shown with a verdict (`SplitRetry.SplitRetryFailsFromTheStart`). The agreement stands
  exactly when for no refused candidate the last evaluation in between is a worker's verdict
  (`SplitRetry.SplitRetryAgreesIff`); before the request, as long as the candidates are not queued anew in between,
  exactly when no job for a refused candidate is on the queue or at a worker (`SplitRetry.SplitRetryIsSafeIff`).
- `sweep_stale_candidates` puts a candidate on the queue before it commits the counter (`app/workers/tasks.py:384-407`). A
  sweep that dies in between leaves the row as it was, so the next one requeues it again, and so on without limit
  (`Watchdog.DeathsExceedTheLimit`). For sweeps one after the other the counter covers the requeues exactly when sweeps
  have died there no more often than the queue has refused (`Watchdog.SerialRequeues`); without such deaths the limit
  holds (`Watchdog.RequeuesAreBounded`).
- `sweep_stale_candidates` says it may run concurrently with itself (`app/workers/tasks.py:345-346`). Overlapping sweeps
  requeue a candidate more often than the limit (`Watchdog.OverlapExceedsTheLimit`), because a round writes back the
  counter its sweep has read plus one. Over any run the requeues are exactly accounted for by the counter, the counts
  lost that way, the uncounted requeues and the refusals (`Watchdog.RunAccounts`, `Watchdog.CounterCoversRequeuesIff`). In
  a given state, with no further sweep begun, the limit holds in every run exactly when the requeues and the open rows
  that can still requeue keep within it (`Watchdog.StaysWithinLimitIff`).

## Model

| member | source | states |
|---|---|---|
| JsonLexing.DumpsBalanced | app/workers/tasks.py:81-86 | the text of every JSON value can be read at any depth and leaves the lexer as it found it, in and out of strings, whatever is escaped |
| JsonLexing.InteriorIsDeep | app/workers/tasks.py:83-85 | anywhere strictly inside an object text the reading is at least one brace deep |
| JsonLexing.OppositeForever | app/workers/tasks.py:81-86 | two readings of one text, one inside a string and one outside, stay opposite to the end unless one of them fails |
| JsonLexing.NoProperSuffix | app/workers/tasks.py:83-85 | no JSON object text is a proper suffix of another or of itself |
| JsonDecoding.QuoteDecodes | app/workers/tasks.py:83-85 | a quoted string, with every escape and surrogate pair, can be read in one way only |
| JsonDecoding.Decodes | app/workers/tasks.py:83-85 | a value text followed by the end of a value determines where it ends and the value, up to key order |
| JsonEquality.SortCanonical | app/workers/tasks.py:83-85 | sorting members by key gives one result for every order of the same members |
| JsonEquality.SameTextIffEqual | app/workers/tasks.py:83-85 | `json.dumps(sort_keys=True)` gives two values the same text exactly when they are equal, numbers taken as printed; key order never matters |
| JsonFormat.AsciiEscapes | app/workers/tasks.py:83-85 | which seven characters are written as a backslash and a letter, and that all other printable ASCII stands for itself |
| JsonFormat.UnitEscapes | app/workers/tasks.py:83-85 | control characters and the rest up to U+FFFF are written as four lower-case hexadecimal digits |
| JsonFormat.PairEscapes | app/workers/tasks.py:83-85 | characters beyond U+FFFF are written as a high and a low surrogate that determine the character |
| JsonFormat.ArrayText | app/workers/tasks.py:83-85 | one more element of an array comes at the end, after a comma and a space |
| JsonFormat.ObjectText | app/workers/tasks.py:83-85 | members are written in the order of their keys, each as quoted key, colon, space and value |
| JsonFormat.BeforeIff | app/workers/tasks.py:83-85 | keys are ordered by code point at the first difference, a proper prefix first |
| CacheKey.LastObjectDecodes | app/workers/tasks.py:81-86 | any text that ends in an object text can be split there in one place only |
| CacheKey.PayloadIdentifiesInputs | app/workers/tasks.py:78-87 | two cache payloads are the same string if and only if resume text, job profile, weights and thresholds are all equal, numbers taken as printed |
| CacheKey.PayloadLayout | app/workers/tasks.py:81-86 | the payload is resume text, profile, weights and thresholds in this order and nothing else |
| Jobs.CreatedIsProper | app/api/jobs.py:61-87 | whether overridden, parsed or deferred, a created job stores a non-empty profile and number dicts |
| Jobs.ReparsedIsProper | app/workers/tasks.py:138-161 | the deferred parse keeps that |
| Jobs.PatchedIsProper | app/api/jobs.py:207-215 | editing weights or thresholds keeps that |
| Jobs.DumpLoads | app/schemas.py:21-27 | every field of a profile is read back under its own name from the stored dict |
| Jobs.CreatedLoads | app/api/jobs.py:61-87 | a new job holds the reviewed profile, else the parsed one, else an empty one, with the weights and thresholds of the request |
| Jobs.EditsAreLocal | app/api/jobs.py:207-215 | editing replaces what the request names and nothing else, and so does the deferred parse |
| VerdictCache.ServedIsCorrect | app/workers/tasks.py:190-198 | in a coherent state a cache hit is the result of recomputing for the same job and text |
| VerdictCache.ResolvedIff | app/workers/tasks.py:96-129 | the text settled on is the stored one when it has 100 characters without the whitespace around them, else the file's when that has; and only that |
| VerdictCache.UnresolvedIff | app/workers/tasks.py:96-129 | no text is settled on exactly when neither has 100 such characters |
| VerdictCache.ShortTextsAreNeverJudged | app/workers/tasks.py:90-129 | over every run, whatever the uploads, no verdict is written for a text of fewer than 100 characters without the whitespace around it |
| VerdictCache.StepEffects | app/workers/tasks.py:183-198 | what settling a text, serving a cached verdict, dying and expiry change, row by row, and that they change nothing else |
| VerdictCache.WorkerEffects | app/workers/tasks.py:202-282 | what loading, committing a profile, evaluating and caching change, and that they change nothing else |
| VerdictCache.RowEffects | app/api/ingest.py:480-483 | a new candidate has neither text nor profile; an upload replaces the file, drops the text and leaves the profile |
| VerdictCache.JobEffects | app/api/jobs.py:61-88 | a job is left to be parsed exactly when it has no reviewed profile and the model gave none, until it is parsed |
| VerdictCache.UploadKeeps | app/api/ingest.py:480-483 | replacing a resume keeps coherence when the row has no profile and every worker holding the candidate has found no resume |
| VerdictCache.ResolveKeeps | app/workers/tasks.py:96-129 | settling and committing the resume text keeps coherence although other workers hold the same candidate |
| VerdictCache.MakeProfileKeeps | app/workers/tasks.py:202-226 | committing a parsed profile keeps coherence although other workers hold the same candidate |
| VerdictCache.StoreKeeps | app/workers/tasks.py:332-337 | caching a computed result keeps every entry right for every job and text that share its key |
| VerdictCache.StepKeepsCoherence | app/workers/tasks.py:164-302 | every step of every worker, request, expiry or crash keeps rows, workers, cache and history coherent, an upload when it is safe |
| VerdictCache.RunsAreCoherent | app/workers/tasks.py:190-282 | coherence over whole runs whose uploads are safe |
| VerdictCache.WrittenForCurrentText | app/workers/tasks.py:186-329 | in a coherent state a verdict is written for the text the candidate stands for at that moment, and is right for it |
| UnsafeUploads.StoredProfileJudges | app/workers/tasks.py:204-208 | the next worker writes and caches the verdict of whatever profile is stored with the candidate |
| UnsafeUploads.ResolvedWorkerCommits | app/workers/tasks.py:202-226 | a worker past its resume text commits that text's profile over a newer resume |
| UnsafeUploads.LoadedWorkerCommits | app/workers/tasks.py:186-226 | so does one that has only loaded the candidate, when another worker has read the newer resume in between |
| UnsafeUploads.LeftoverGoesWrong | app/api/ingest.py:480-483 | for each kind of leftover, a run without further uploads that writes and caches a wrong verdict |
| UnsafeUploads.UploadIsSafeIff | app/api/ingest.py:480-483 | all verdicts written or cached in all later runs are right, whatever the file, if and only if the row has no profile and every worker holding the candidate has found no resume |
| UnsafeUploads.UploadJudgesByOldProfile | app/api/ingest.py:480-483 | after an upload over a stored profile the next worker writes and caches the verdict of the old profile for the new text |
| CachedPipeline.EveryJobIsProper | app/api/jobs.py:54-88 | in every run no stored job has an empty profile, so the profile is always the stored one |
| CachedPipeline.WeightsAreRead | app/pipeline/score.py:27-27 | each weight of a job is the number stored under its own key |
| CachedPipeline.ThresholdsAreRead | app/pipeline/score.py:59-59 | so is each threshold |
| CachedPipeline.ComputeEvaluates | app/workers/tasks.py:186-267 | a stored job is evaluated by its validated profile and its own weights and thresholds; a profile that does not validate raises |
| CachedPipeline.KeyDeterminesResult | app/workers/tasks.py:186-282 | equal keys mean equal text and equal result of the whole pipeline, for every job that can be stored |
| CachedPipeline.CachedRunsEqualRecomputation | app/workers/tasks.py:164-302 | in every run whose uploads are safe, every verdict written, cached or computed, is what a fresh parse and the real pipeline give for its inputs |
| CachedPipeline.CacheEqualsRecomputation | app/workers/tasks.py:190-198 | in such a run an entry found under a key is what a fresh evaluation gives for any job that can be stored and any text with that key |
| CachedPipeline.VerdictsAreForCurrentText | app/workers/tasks.py:164-329 | and it is written for the text the candidate stands for at that moment |
| CachedPipeline.StaleProfileChangesVerdict | app/workers/tasks.py:204-208 | a leftover profile on the other side of the years filter changes the result |
| CachedPipeline.EmptyProfileIsAmbiguous | app/workers/tasks.py:210-214 | why a stored job needs a profile: two jobs without one could share every key and differ in the verdict |
| CachedPipeline.YearsTellApart | app/pipeline/filters.py:13-19 | a job that asks for years tells apart a resume that has them and one that has not: no profile is right for both |
| CachedPipeline.SampleJobTellsApart | app/pipeline/filters.py:13-19 | a job as `create_job` stores it that tells two resume files apart |
| CachedPipeline.UploadSpoilsCache | app/api/ingest.py:480-483 | an upload over a profile that decides otherwise, either way, leaves a cache entry that recomputing contradicts |
| CachedPipeline.UploadSpoilsCacheFromTheStart | app/api/ingest.py:480-483 | a concrete run from the initial state in which that happens |
| Worker.Process.ResolveResume | app/workers/tasks.py:96-129 | the branches compute the text settled on: the stored one if long enough, else the file's if that is, else nothing; commits only a text that differs, and keeps coherence |
| Worker.Process.MakeProfile | app/workers/tasks.py:202-226 | in a coherent state the profile used is the parse of the current text, and it is what the row then holds |
| Worker.Process.WriteEvaluation | app/workers/tasks.py:305-329 | appends the evaluation and sets `done`; coherence is kept because the result is the recomputed one |
| Worker.Process.EvaluateFresh | app/workers/tasks.py:202-300 | after a miss: writes and then caches a result, or records a failure and caches nothing |
| Worker.Process.ProcessCandidate | app/workers/tasks.py:164-302 | the outcome of a whole job is the one expected without the cache, whether or not the cache can be read or written; a candidate without a text of 100 characters is failed with one error and no verdict, any other is judged by the stored text if long enough, else the file's; the row ends with that text and its profile or none; no other row changes |
| Requests.IngestRefuses | app/api/ingest.py:266-321 | a request of a stranger, for a job still being parsed, with no rows or too few credits changes nothing |
| Requests.IngestAnswers | app/api/ingest.py:374-386 | answered 503 exactly when the queue takes no row, else with the number of rows taken |
| Requests.IngestContract | app/api/ingest.py:323-372 | each row becomes a pending candidate queued once and paid for, or a failed one shown as unprocessed and not paid for; nobody else changes |
| Requests.CancelContract | app/api/ingest.py:83-125 | exactly the job's pending candidates are failed and shown as unprocessed; the answer is their number; queue and credits are untouched |
| Requests.RetryFailedContract | app/api/ingest.py:164-212 | exactly the job's failed candidates with a resume are retried, queued once each where accepted and failed again where not, at no charge |
| Requests.UploadContract | app/api/ingest.py:451-498 | an accepted upload leaves the candidate pending with a resume, queued once and paid with one credit; no other row, balance or shown verdict changes |
| Requests.RefusedUploadContract | app/api/ingest.py:480-498 | a refused upload still stores the resume and leaves the candidate pending; nothing is queued or paid |
| Requests.RetryContract | app/api/ingest.py:141-160 | an accepted single retry sets the candidate pending and queues it once at no charge; nothing else changes |
| Requests.SingleRefusals | app/api/ingest.py:129-148 | which single retries and uploads are answered 404, 400 and 402, changing nothing |
| Requests.BulkRefusals | app/api/ingest.py:266-321 | which sheets, cancellations and bulk retries are answered 404, 409, 422 and 402, changing nothing |
| Requests.WorkerCommits | app/workers/tasks.py:183-329 | a worker's commits set the status and time of its candidate alone; finishing shows the verdict, failing shows the candidate as unprocessed, with exactly one evaluation each |
| Requests.JobSteps | app/api/jobs.py:61-88 | creating a job makes its creator the owner and blocks ingestion exactly when the parse is deferred |
| Requests.ParsedJobs | app/workers/tasks.py:138-161 | the deferred parse unblocks that job and no other |
| Lifecycle.JobsAreConserved | app/api/ingest.py:60-79 | in every run each job ever queued for a candidate is waiting, at a worker, or has ended: none is lost or invented |
| Requests.RefusedRetryIsUndone | app/api/ingest.py:149-157 | a retry the queue refuses leaves everything as it was but the time stamp |
| Requests.RefusedUploadStaysPending | app/api/ingest.py:480-494 | an upload the queue refuses charges nothing and leaves the candidate pending without a queued job |
| StatusAgreement.StepAgrees | app/workers/tasks.py:284-329 | every step keeps status and shown verdict in agreement for every candidate |
| StatusAgreement.FailAllAgrees | app/api/ingest.py:104-118 | failing any candidates together with evaluations without verdict brings them into agreement |
| StatusAgreement.FinishAgrees | app/workers/tasks.py:313-329 | evaluation and `done` in one commit keep the agreement |
| StatusAgreement.FailedIsNeverShownAsRejected | app/api/results.py:113-123 | in every reachable state a failed candidate is shown as Unprocessed and a done one with a verdict |
| SplitRetry.StepShows | app/api/results.py:272-281 | a step shows a candidate differently only by finishing or failing it |
| SplitRetry.RunShows | app/api/results.py:272-281 | what a run shows of a candidate is decided by the last evaluation it adds, if any |
| SplitRetry.RetryMustBeOneStep | app/api/ingest.py:149-157 | a leftover worker that finishes between the two commits of a retry makes a failed candidate shown as assessed |
| SplitRetry.TogetherTheyAreOneRetry | app/api/ingest.py:149-157 | the two commits of a refused retry with nothing in between amount to the request as one step |
| SplitRetry.TogetherTheyAreOneBulkRetry | app/api/ingest.py:184-201 | the same for a bulk retry |
| SplitRetry.TogetherTheyAreOneStep | app/api/ingest.py:184-201 | as steps of the whole system, with the jobs on the queue, the two bulk commits are the bulk request |
| SplitRetry.AcceptedRetryIsOneCommit | app/api/ingest.py:149-153 | an accepted single retry is the first commit alone, as a step of the whole system |
| SplitRetry.SplitRetryAgreesIff | app/api/ingest.py:149-201 | whatever run comes between the two commits of a single or bulk retry, the agreement stands if and only if for no refused candidate the last evaluation in it is a worker's verdict |
| SplitRetry.SplitRetryIsSafeIff | app/api/ingest.py:149-201 | over all runs in between that do not queue a refused candidate anew, a single or bulk retry keeps the agreement if and only if no refused candidate has a job on the queue or at a worker when it begins |
| SplitRetry.SplitRetryFailsFromTheStart | app/api/ingest.py:98-201 | a run from the initial state: ingested, cancelled, retried singly or in bulk, the old job started and finished by a worker, the retry refused |
| Watchdog.StepKeepsOrder | app/workers/tasks.py:349-407 | with no sweep begun during another, every step keeps the rows of a sweep in step with the counters stored |
| Watchdog.ScansAreComplete | app/workers/tasks.py:356-361 | in every reachable state a table scan meets every candidate, and each once |
| Watchdog.RunAccounts | app/workers/tasks.py:364-407 | over any run, with any number of sweeps, the counter has gained exactly the tries less the counts lost to outdated reads, and requeues are exactly the tries less those refused plus those of sweeps that died before counting them |
| Watchdog.RequeuesAreAccountedFor | app/workers/tasks.py:364-407 | in every run requeues never exceed the counter plus the counts lost plus the uncounted requeues, nor the counter the limit |
| Watchdog.CounterCoversRequeuesIff | app/workers/tasks.py:364-407 | after any run the counter covers the requeues if and only if no more were lost to outdated reads or left uncounted than tries were refused |
| Watchdog.SerialRequeues | app/workers/tasks.py:363-407 | with sweeps one after the other, each free to die anywhere, the counter stays within the limit and covers the requeues if and only if no more were left uncounted than refused |
| Watchdog.RequeuesAreBounded | app/workers/tasks.py:363-407 | with sweeps one after the other that die between rounds only, a candidate is requeued at most the configured number of times in its whole life |
| Watchdog.DeadRoundLeavesNoTrace | app/workers/tasks.py:384-407 | after a sweep that died inside a round every sweep finds what that one found |
| Watchdog.DeathsExceedTheLimit | app/workers/tasks.py:384-407 | for every limit, a run from the initial state in which sweeps that follow each other and die inside a round requeue a candidate more often |
| Watchdog.RequeueKeepsBoundIff | app/workers/tasks.py:380-391 | after a requeue the counter covers the requeues exactly when the counter the sweep has read covered them before |
| Watchdog.OneRoundCanLoseSeveralCounts | app/workers/tasks.py:380-381 | a round on a counter outdated by several counts loses them all |
| Watchdog.OverlappingSweepsRequeueTwice | app/workers/tasks.py:345-346 | two sweeps that have read the same row requeue twice and count once |
| Watchdog.OverlapExceedsTheLimit | app/workers/tasks.py:345-346 | for every limit, a run from the initial state in which overlapping sweeps requeue a candidate more often |
| Watchdog.StepUsesOpenTry | app/workers/tasks.py:363-407 | every requeue uses up a row of an open sweep, whether its sweep goes on or dies |
| Watchdog.StaysWithinLimitIff | app/workers/tasks.py:363-407 | in a reachable state with no further sweep begun, every run stays within the limit if and only if the requeues plus the open rows that can still requeue do |
| Watchdog.CounterMoves | app/workers/tasks.py:364-407 | only a committed visit of a sweep moves a candidate's counter, to the one it has read plus one; a requeue is a try the queue takes or one of a sweep that dies before its commit; otherwise a visit fails the candidate |
| Watchdog.SweepOneEffect | app/workers/tasks.py:363-407 | one round, whatever has become of the candidate since it was read: the counter read plus one and a queue entry while tries are left and the queue accepts, else failed with one evaluation; a status read as pending is not written |
| Watchdog.CounterFallsIff | app/workers/tasks.py:380-381 | a step lowers a counter exactly when a sweep writes back one that lags by more than the one it adds |
| Watchdog.CounterNeverFalls | app/models.py:113-116 | over every run whose sweeps read current counters, the counter grows by exactly the tries |
| Watchdog.WatchdogGivesUp | app/workers/tasks.py:363-381 | once sweeps have committed more visits to a candidate than it has retries left and counts were lost, one of the visits has failed it |
| Sweeping.RoundTreats | app/workers/tasks.py:363-407 | one round sets the new status, counter and time of its candidate and touches no other |
| Sweeping.RowsAppend | app/workers/tasks.py:363-407 | a sweep appends exactly the requeued candidates to the queue and an error evaluation for each other row, and changes nothing else but candidates |
| Sweeping.SweepContract | app/workers/tasks.py:340-413 | exactly the stuck candidates are treated: requeued once each, or failed with one new evaluation each; queue and evaluations gain nothing else and other candidates are unchanged |
| Sweeping.SweepShows | app/workers/tasks.py:363-407 | after a sweep exactly the candidates it gave up are shown as unprocessed by it |
| Sweeping.SecondSweepIsIdle | app/workers/tasks.py:345-361 | a second sweep with the same cutoff changes nothing |
| Sweeping.CrashingCandidateIsGivenUp | app/workers/tasks.py:340-413 | over sweeps and dying workers in any order: once more sweeps have found a candidate stuck than it has retries left, one of them has failed it with a new evaluation |
| Sweeping.AbandonedCandidateIsGivenUp | app/workers/tasks.py:349-413 | a stuck candidate nobody touches is given up after at most the limit plus one sweeps at intervals |
| Ledger.IngestBalances | app/api/ingest.py:314-372 | ingesting charges exactly the candidates queued and never overdraws |
| Ledger.UploadBalances | app/api/ingest.py:477-494 | an upload charges one credit when it is queued and nothing when the queue refuses |
| Ledger.StepBalances | app/api/ingest.py:314-372 | every step of every kind keeps all balances equal to grants minus charges and non-negative |
| Ledger.CreditsAreConserved | app/api/billing.py:116-125 | in every reachable state grants equal balance plus candidates queued by sheet plus uploads queued, and no balance is negative |
| Service.Backend.Signup | app/api/auth.py:59-70 | a new address gets exactly the free credits to spend and on record, everyone else's are unchanged, and balanced books stay balanced; a known address changes nothing |
| Service.Backend.AdminGrantCredits | app/api/billing.py:111-125 | a known user has exactly the grant more to spend and on record, everyone else's are unchanged, and a non-negative grant keeps balanced books balanced; an unknown user changes nothing |
| Service.Backend.EnqueueCandidates | app/api/ingest.py:60-79 | splits the candidates into taken and refused, in order, and appends exactly the taken ones to the queue |
| Service.Backend.IngestCandidates | app/api/ingest.py:259-386 | state and answer are those of the specification `Lifecycle.Ingest` |
| Service.Backend.CancelPendingCandidates | app/api/ingest.py:83-125 | state and answer are those of `Lifecycle.Cancel` |
| Service.Backend.RetryCandidate | app/api/ingest.py:129-160 | state and answer are those of `Lifecycle.Retry`: both commits together amount to one change |
| Service.Backend.RetryFailedCandidates | app/api/ingest.py:164-212 | state and answer are those of `Lifecycle.RetryFailed` |
| Service.Backend.UploadCandidateResume | app/api/ingest.py:451-498 | state and answer are those of `Lifecycle.Upload`: the refund undoes the charge |
| Service.Backend.WriteEvaluation | app/workers/tasks.py:305-329 | one evaluation with a verdict and status `done` |
| Service.Backend.Fail | app/workers/tasks.py:284-300 | one evaluation without a verdict and status `failed` |
| Service.Backend.SweepCandidate | app/workers/tasks.py:363-407 | the loop body does what one round does, writing the status only where it was read differently |
| Service.Backend.SweepStaleCandidates | app/workers/tasks.py:340-413 | the state is that of a whole sweep; `requeued` and `failed` count the candidates put back and given up, and add up to the stuck ones |
| RateLimiter.DelayIsExact | app/llm/_openai_compatible.py:34-48 | the wait is exactly long enough: a call is admissible after it and at no earlier moment |
| RateLimiter.AtMostCapPerMinute | app/llm/_openai_compatible.py:18-22 | any two calls with the limit of calls between them are more than 60 seconds apart |
| RateLimiter.Limiter.Purge | app/llm/_openai_compatible.py:32-33 | drops exactly the calls more than a minute old; the deque stays the recent end of the history |
| RateLimiter.Limiter.Wait | app/llm/_openai_compatible.py:28-48 | records one call, sleeps at most 60 seconds and exactly as the history requires; the deque stays the recent end of a history in which limit+1 calls always span more than 60 seconds |
| RateLimiter.CompleteJson | app/llm/_openai_compatible.py:118-151 | one slot per attempt, at most max(max_retries, 1) attempts, the outcome of the first attempt with which the loop stops, and between two attempts at least the pause the server asks for, else the backoff |
| RateLimiter.OutcomeMeaning | app/llm/_openai_compatible.py:129-151 | an answer is the first attempt that is not unavailable; giving up means every attempt was; anything raised before that was no unavailability, or a negative pause |
| RateLimiter.OutcomeUnique | app/llm/_openai_compatible.py:129-151 | the attempts determine the outcome and the number of slots taken |
| SignupLimiter.PruneTwice | app/api/auth.py:29-29 | pruning a pruned list is pruning the whole history |
| SignupLimiter.CountedIsRecentEnd | app/api/auth.py:29-29 | what pruning keeps is the most recent end of the history |
| SignupLimiter.AcceptIffSpaced | app/api/auth.py:30-34 | fewer than five are counted if and only if accepting keeps any six accepted sign-ups at least 3600 seconds apart |
| SignupLimiter.CountedIs | app/api/auth.py:21-29 | what counts are the accepted sign-ups less than 3600 seconds old, in order |
| SignupLimiter.SixSpanAnHour | app/api/auth.py:21-34 | any six accepted sign-ups of one address in a row span at least 3600 seconds |
| SignupLimiter.CheckKeeps | app/api/auth.py:26-34 | one request keeps the list equal to the filtered accepted history, accepted or not |
| SignupLimiter.Limiter.Check | app/api/auth.py:26-34 | the decision depends on the address's accepted history alone; a refusal extends nothing; other addresses are untouched |
| Rounding.SharesDoNotOverflow | ui/right_hire_ui/states/create_job_state.py:175-178 | half-even rounding of two shares of an even whole never exceeds the whole |
| Rounding.Round4Iff | app/pipeline/score.py:38-38 | `round(x, 4)` is the nearest number with four decimals, a tie going to the even digit |
| Rounding.Round2Iff | ui/right_hire_ui/states/create_job_state.py:175-178 | `round(x, 2)` likewise with two |
| Scoring.ScoreIsAMean | app/pipeline/score.py:27-38 | the score lies between the rounded lowest and highest clamped signal, hence in [0, 1] |
| Scoring.ScoreMonotone | app/pipeline/score.py:27-38 | raising any signal never lowers the score |
| Scoring.ScoreIgnoresScale | app/pipeline/score.py:33-52 | multiplying all weights by one factor changes neither score, verdict nor contributions |
| Scoring.ContributionsExplainScore | app/pipeline/score.py:41-52 | the three rounded contributions add up to the score within 0.0002 |
| Scoring.ScoreArithmetic | app/pipeline/score.py:17-54 | the score is the rounded quotient of the weighted clamped signals and the sum of the weights, with the defaults 0.30, 0.20 and 0.50; each contribution, weight and signal of the breakdown is its own; it raises exactly when the weights add up to zero |
| Scoring.VerdictBands | app/pipeline/score.py:57-64 | Fit from the fit cutoff on, Maybe from the maybe cutoff on, else Reject, with the defaults 0.70 and 0.40 |
| Matching.CollectMatchedBullets | app/pipeline/match.py:75-86 | the loop and the cap compute the first ten bullets that mention a matched skill |
| Matching.BulletsAreTheFirstMatches | app/pipeline/match.py:75-86 | a prefix of the qualifying bullets, at most ten, and all of them when fewer than ten come back |
| Matching.OverlapCountsMatchedSkills | app/pipeline/match.py:15-32 | overlap times the number of canonical JD skills is the number of canonical forms among the matched skills |
| Matching.MatchedForms | app/pipeline/match.py:71-72 | the canonical forms of the matched skills are exactly those shared by both sides |
| Matching.OverlapExtremes | app/pipeline/match.py:15-32 | overlap is 1 exactly when every JD skill is matched, 0 exactly when none is, and always in between |
| Matching.OverlapIgnoresOrder | app/pipeline/match.py:24-32 | reordering or repeating skills on either side changes nothing |
| Matching.OverlapMonotone | app/pipeline/match.py:24-32 | more candidate skills never lower the overlap |
| Matching.OverlapIs | app/pipeline/match.py:15-32 | overlap times the number of distinct lower-case canonical JD skills is the number of them among the candidate's; 1 without JD skills |
| Matching.MatchedIff | app/pipeline/match.py:66-72 | a JD skill is matched exactly when some skill of the candidate has its lower-case canonical form, in the order of the JD |
| Matching.BulletsMention | app/pipeline/match.py:75-86 | a bullet is reported only if it mentions a matched skill, case aside, and every such bullet when fewer than ten are |
| Pipeline.FiltersPassIff | app/pipeline/filters.py:13-42 | a candidate passes exactly when no rule speaks against them, and a skills rejection names exactly the uncovered must-haves |
| Pipeline.FiltersInPlainTerms | app/pipeline/filters.py:13-42 | which rule rejects, in which order and with what reason: years, then location, then must-haves, case aside and containment either way |
| Pipeline.MoreSkillsPassFilters | app/pipeline/filters.py:13-42 | whoever passes the filters still passes with more skills and more years |
| Pipeline.FallbackVerdict | app/pipeline/judge.py:57-66 | without a judge the verdict comes from overlap, similarity and the rounded overlap alone |
| Pipeline.JudgedEvaluation | app/workers/tasks.py:243-282 | when the judge answers, its score is the third signal, the verdict is that of the aggregated score by the job's cutoffs, and its rubric and reasons are the result's |
| Pipeline.UnjudgedEvaluation | app/pipeline/judge.py:49-66 | when it does not, the rounded overlap takes its place as signal and rubric, with the fallback reason |
| Pipeline.PromptIsUnique | app/pipeline/judge.py:19-36 | the judge is asked about the first ten required skills, the first ten matched ones, the first five matching bullets and the criteria |
| Pipeline.EvaluationRaisesIff | app/workers/tasks.py:229-267 | a rejection by the filters is the result; past them evaluation raises exactly for a number other than zero stored as rubric and for weights that add up to zero |
| Pipeline.SimilarityReads | app/workers/tasks.py:243-255 | what is compared are the bullets, or without any the first 500 characters, with required skills, preferred skills and title joined by spaces |
| Pipeline.VerdictMonotoneInJudgement | app/pipeline/score.py:34-38 | a better score by the judge never lowers the verdict |
| Pipeline.VerdictMonotoneInQualifications | app/workers/tasks.py:229-267 | without a judge more skills and years never lower the verdict, from filters through overlap, fallback and aggregation to thresholds |
| Statistics.SortIsCanonical | app/api/results.py:224-224 | sorting depends on the multiset of scores only |
| Statistics.PercentileBetween | app/api/results.py:221-227 | a percentile lies between the two order statistics around its position, up to rounding |
| Statistics.PercentileInterpolates | app/api/results.py:221-227 | between two order statistics the percentile is the linear interpolation, rounded to four decimals |
| Statistics.PercentileIsNear | app/api/results.py:221-227 | the same as an inequality in the scores and p alone |
| Statistics.MedianOfTwo | app/api/results.py:221-227 | the median of two scores, in either order, is their mean, rounded |
| Statistics.PercentileMonotone | app/api/results.py:221-227 | percentiles are monotone in p |
| Statistics.StatisticsInOrder | app/api/results.py:396-401 | minimum = p0 <= p25 <= p50 <= p75 <= p90 <= p100 = maximum, up to rounding |
| Statistics.PercentileIgnoresOrder | app/api/results.py:221-227 | a percentile depends on the multiset of scores only |
| Statistics.TopCounts | app/api/results.py:234-235 | all scores from an order statistic on reach any cutoff below it |
| Statistics.SuggestedThresholdsSplit | app/api/results.py:230-240 | maybe <= fit; at least n - floor(0.7 n) scores reach the fit statistic; the rounded cutoff labels Fit all scores 0.005 above it and none more than 0.005 below |
| Statistics.SuggestedAre | app/api/results.py:230-240 | with three scores or more the cutoffs are the rounded order statistics at floor(7n/10) and floor(3n/10), else 0.70 and 0.40 |
| Statistics.SuggestedShares | app/api/results.py:230-240 | at least n - floor(7n/10) scores reach the first of them and n - floor(3n/10) the second |
| SheetIngest.ColMapIsProper | app/pipeline/ingest.py:19-65 | in the service's own alias table every spelling of a field's name is an alias of that field |
| SheetIngest.ParseCsv | app/pipeline/ingest.py:164-192 | the loops compute the direct path `ParsedCsv` |
| SheetIngest.ParseCsvRaw | app/pipeline/ingest.py:195-210 | the loops compute the stripped headers and the raw records |
| SheetIngest.DetectColumnMapping | app/pipeline/ingest.py:68-97 | the two passes compute `DetectedMapping` |
| SheetIngest.ApplyColumnMapping | app/pipeline/ingest.py:104-114 | every row is re-keyed, none dropped |
| SheetIngest.DetectionIsInjective | app/pipeline/ingest.py:74-97 | no header is given to two fields, for every header list |
| SheetIngest.DetectionPrefersFirstAlias | app/pipeline/ingest.py:77-82 | a field with an exact alias among the headers gets the first of them, whatever the keyword pass does |
| SheetIngest.FieldAgrees | app/pipeline/ingest.py:100-114 | for one row and field the direct path and the re-keyed raw record hold the same value |
| SheetIngest.PathsAgree | app/pipeline/ingest.py:164-210 | with unambiguous headers both paths keep the same rows, hence cost the same credits, and give every field the same value |
| SheetIngest.NormalizedIs | app/pipeline/ingest.py:100-101 | an alias is read as its field's name, any other header as itself in lower case with underscores for spaces |
| SheetIngest.ParsedRows | app/pipeline/ingest.py:164-192 | on any sheet the direct path returns exactly the rows with a non-blank cell under a non-blank header, in order, and of each row a field gets the last non-blank cell under one of its aliases, stripped, and is blank without one |
| SheetIngest.RawRows | app/pipeline/ingest.py:195-210 | on any sheet the preview keeps exactly the rows with a non-blank cell under a header that does not recur to its right, in order, and under each header the last cell it has, stripped |
| SheetIngest.RenamedIs | app/pipeline/ingest.py:106-113 | a header mapped to several fields gets the name of the last one; one that is mapped to none keeps its name |
| SheetIngest.RekeyedReads | app/pipeline/ingest.py:104-114 | of the entries renamed to one key the last one counts |
| SheetIngest.HintsFillTheRest | app/pipeline/ingest.py:84-95 | a field without an exact alias gets the first header that contains one of its keywords and is neither an exact match nor given to an earlier field, and none exactly when there is no such header |
| SheetIngest.HintsIff | app/pipeline/ingest.py:91-92 | a hint is a keyword of the field anywhere in the stripped lower-case header |
| JobWizard.CreateJobState.Split | ui/right_hire_ui/states/create_job_state.py:114-131 | the appending loop computes the three lists without repetitions |
| JobWizard.EditedRowsSplitCleanly | ui/right_hire_ui/states/create_job_state.py:114-131 | whatever rows are edited, the lists have no repetitions and every must-have is required |
| JobWizard.SplitMembers | ui/right_hire_ui/states/create_job_state.py:114-131 | which texts are required, preferred and must-haves: the stripped, non-blank texts of the rows of those levels |
| JobWizard.SplitOneMore | ui/right_hire_ui/states/create_job_state.py:114-131 | one more row puts its text at the end of the lists its level belongs to, unless it is there |
| JobWizard.RowsOfParse | ui/right_hire_ui/states/create_job_state.py:28-40 | the rows of a parsed description: the required skills with their levels, then the must-haves not among them, then the preferred skills that are neither, up to case and in order |
| JobWizard.PassThrough | ui/right_hire_ui/states/create_job_state.py:28-40 | the three lists after one pass, in terms of the lists before it |
| JobWizard.PassPreservesImportance | ui/right_hire_ui/states/create_job_state.py:28-40 | up to case: must-haves preserved, required = required and must-haves, preferred = the old ones that are neither |
| JobWizard.PassNormalizes | ui/right_hire_ui/states/create_job_state.py:28-40 | one pass gives a normal form |
| JobWizard.FixedPointsAreNormalForms | ui/right_hire_ui/states/create_job_state.py:114-131 | the normal forms are exactly the lists that pass through unchanged |
| JobWizard.SecondPassIsIdentity | ui/right_hire_ui/states/create_job_state.py:114-131 | a second pass is the identity |
| JobWizard.CreateJobState.NormalizeWeights | ui/right_hire_ui/states/create_job_state.py:168-178 | the three assignments in sequence compute `NormalizedWeights` |
| JobWizard.NormalizedWeightsAreShares | ui/right_hire_ui/states/create_job_state.py:168-178 | three non-negative weights that sum to exactly 1, each within 0.01 of its exact share |
| JobWizard.WeightsBecome | ui/right_hire_ui/states/create_job_state.py:168-178 | weights without a positive sum become 0.30, 0.20 and 0.50; any others add up to exactly 1, the first two being their shares to the nearest hundredth |
| JobWizard.NormalizeTwice | ui/right_hire_ui/states/create_job_state.py:168-178 | normalizing is idempotent, whatever the weights |

## Left out

- StatusAgreement.FailedIsNeverShownAsRejected: takes every API request as one step; `SplitRetry` says when the commits of a retry may come apart.
- Watchdog.RequeuesAreBounded: takes sweeps one after the other that die between rounds only; `Watchdog.RequeuesAreAccountedFor` covers the others.
- Ledger.CreditsAreConserved: takes every API request as one step; a server that dies inside one can leave an upload charged and not queued (`app/api/ingest.py:483-489`), or candidates queued and not charged (`app/api/ingest.py:349-372`).
- VerdictCache.StepKeepsCoherence: an upload must be safe; `UnsafeUploads.UploadIsSafeIff` shows that no unsafe one could be let in.
- VerdictCache.RunsAreCoherent: uploads must be safe, as in a single step.
- CachedPipeline.CachedRunsEqualRecomputation: uploads must be safe, as in a single step.
- JsonEquality.SameTextIffEqual: numbers are compared as printed, so 1, 1.0 and True, which Python calls equal, have different texts; keys then differ where they could agree, which costs a cache miss and no wrong verdict.
- JsonDecoding.QuoteDecodes: strings are sequences of Unicode scalar values; lone surrogates, two of which would be written like one character above U+FFFF, are not modelled.
- RateLimiter.Limiter.Wait: takes one fixed limit for the life of a limiter, and a clock that strictly increases between readings.
- Worker.Process.ProcessCandidate: one uninterrupted worker, with interleaving left to `VerdictCache`; and a stored job profile that does not validate raises before the resume profile is committed; the method commits first. The interleaved steps of `VerdictCache` allow both.
- SheetIngest.RenamedIs: takes the fields of a mapping in their canonical order, as the detected mapping has them; a mapping typed by the user may list them in another.
- SHA-256 is a function without collisions; no property of its digests is used beyond that.
- The language model, resume and JD parsing, JD validation, text extraction, embeddings with their cosine, the skill canonicaliser and lower-casing are deterministic functions; a failed judge call is one of the judge's answers, so a fallback verdict is cached like any other (`app/pipeline/judge.py:49-66`).
- JSON numbers are their printed literals, NaN and Infinity included, with no relation between literals of one value.
- Floating point: scores, weights and percentiles are exact reals, and the index products of the suggested thresholds are floor(7n/10) and floor(3n/10).
- Weights and thresholds hold numbers only, as the API admits (`app/schemas.py:47-48`), so a stored rubric is a number and rubric keys never reach the prompt.
- Order of a table scan: the list of candidates stands for it, and no result but the order of evaluations and queue entries depends on it.
- Stored objects are maps of row values: the identity map and expiry rules of the ORM session are modelled only as the values a worker or sweep has read.
- Rows of the sheet: the lifecycle takes the ids and which rows have a resume link; names, emails, years and locations are left to `SheetIngest`, and backfilling blank columns from the profile is not modelled.
- Column mappings typed by the user that name fields outside the five canonical ones, and the Excel readers.
- CSV tokenising and decoding.
- HTTP, authentication, file size and signature checks, admin key checks, and credit-request rows.
- Deleting jobs and candidates, editing evaluations by hand, editing credits by hand, negative grants.
- Failures of the database itself, including a cached verdict whose commit fails and is then recomputed.
- Deferred JD parsing in the life of a candidate, beyond the flag that blocks ingestion; `VerdictCache` has it as a step.
- Histograms, confidence bands, ranks, summaries and friendly error texts of the reasoning card.
- All pages and the remaining state of the user interface.
