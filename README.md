# wordflux: rate limiter and command-line decisions, in Dafny

wordflux translates `.docx` documents through an LLM provider (OpenAI or
Gemini). This project models two parts of it and proves properties of them.

**The rate limiter** (`rate_limiter.dfy`, module `RateLimiting`). It gates
outgoing requests over a sliding window. It holds a request deque of admission
times and a token deque of `(time, estimated tokens)` pairs. Each pass of
`acquire` does four things. It pops expired entries off the front of both
deques. It checks requests per minute (`rpm`), then tokens per minute (`tpm`).
A saturated check asks the caller to sleep until the oldest entry leaves the
window, plus a 500 ms buffer. Otherwise the request is recorded in both deques.
A cap of 0 switches its check off.

The model is a class with the two deques as `seq` fields. `Evaluate(now, est)`
is one pass at clock reading `now`. It answers `Wait(d)` or `Admitted`.
`Acquire` drives `Evaluate` over a sequence of clock readings. A ghost field
`granted` records every admission ever made. The invariant `Ordered(now)`
holds while the clock never goes back. Under it the caps are proved over any
window, not only at admission times.

**The decisions of `main`** (`main.dfy`, module `Main`):
- resolving the API key from the configuration map, with the provider default
  and the gemini→openai fallback;
- the `rpm_limit` / `tpm_limit` defaults;
- selecting `.docx` files from a directory walk while skipping `~$` lock files;
- the early exits;
- the per-file loop that records a failure and goes on.

The configuration, the walked directory listing, the kind of input path and
each file's translation outcome are inputs.

Time is an integer number of milliseconds, so the default window is 60000 and
the buffer 500. The source uses float seconds with a 0.5 s buffer.

The window length is a constructor parameter, as in the code (default 60
seconds).

`Acquire` returns the passes it made as a ghost list of (reading index,
answer) pairs. Its contract says that this list is the one run of `acquire`
over the readings: every pass answers as one pass over the starting deques
purged at its reading, and each pass runs where the previous sleep ended.
Purges compose, because purging at an earlier time and then at a later one is
the same as purging once at the later time. That is why every pass can be
stated against the starting deques.

## Model

| member | source | states |
|---|---|---|
| `RateLimiting.RateLimiter.constructor` | wordflux/utils/rate_limiter.py:13-19 | caps and window as given, both deques empty, nothing granted yet, lockstep invariant established |
| `RateLimiting.RateLimiter.EmptyOrdered` | wordflux/utils/rate_limiter.py:13-19 | a fresh limiter satisfies the clock-monotone invariant at any time when its window is not negative |
| `RateLimiting.Expired` | wordflux/utils/rate_limiter.py:30-34 | the strict test of both popping loops: an entry has left the window at `now` when `now - ts > window`; `PurgeKeepsOnlyLive` states that an entry exactly one window old is kept |
| `RateLimiting.Kept` | wordflux/utils/rate_limiter.py:33-34 | the last `n` entries of a deque, which is what popping from the front leaves; `DropExpired` states that the token deque ends as the last `|requestTimes|` entries of the old one, and `KeptTwice` that two such cuts compose |
| `RateLimiting.Purge` | wordflux/utils/rate_limiter.py:30-31 | the purged deque is a suffix of the old one, everything dropped had expired (strictly older than the window), and the new front, if any, has not |
| `RateLimiting.PurgeKeepsOnlyLive` | wordflux/utils/rate_limiter.py:30-31 | on a time-ordered deque, every timestamp left after the purge is within the window of `now` (an entry exactly one window old is kept) |
| `RateLimiting.PopExpiredRequests` | wordflux/utils/rate_limiter.py:30-31 | the popping loop over the request deque computes exactly `Purge` |
| `RateLimiting.PopExpiredTokens` | wordflux/utils/rate_limiter.py:33-34 | the popping loop over the token deque leaves a suffix whose front is live and pops only expired entries |
| `RateLimiting.PurgesAgree` | wordflux/utils/rate_limiter.py:30-34 | two deques in lockstep lose the same number of entries to the two loops |
| `RateLimiting.LockstepTail` | wordflux/utils/rate_limiter.py:30-34 | after equal-length purges the deques are still in lockstep and the token deque is still the latest part of the history |
| `RateLimiting.LockstepAppend` | wordflux/utils/rate_limiter.py:59-60 | appending `now` and `(now, est)` keeps the deques in lockstep |
| `RateLimiting.TokenSum` | wordflux/utils/rate_limiter.py:47 | the token total `sum(t[1] for t in token_timestamps)`; `TokenSumAppend` states that an append adds its estimate, `DequesAreWindow` that over purged deques it is the token sum of the window ending at `now` |
| `RateLimiting.TokenSumAppend` | wordflux/utils/rate_limiter.py:47-60 | appending an event adds exactly its estimate to the token total |
| `RateLimiting.Decide` | wordflux/utils/rate_limiter.py:36-56 | the decision of one pass over purged deques, a ghost specification: the RPM check, then the TPM check, each asking for a sleep of window minus the oldest entry's age plus the buffer when that is positive, otherwise admission; its meaning is stated by `DecideOnPurged` and `DisabledCapsAdmit`, `CheckAndRecord` is proved to follow it, and `TwoPerMinuteScenario` evaluates it |
| `RateLimiting.DecideOnPurged` | wordflux/utils/rate_limiter.py:36-56 | over purged deques every wait is at least the 500 ms buffer, so a saturated check never falls through; admission happens exactly when the request deque is under `rpm` and the token sum plus the estimate is within `tpm` or the token deque is empty |
| `RateLimiting.DisabledCapsAdmit` | wordflux/utils/rate_limiter.py:38-48 | with `rpm = 0` and `tpm = 0` a pass admits whatever the deques hold |
| `RateLimiting.Wake` | wordflux/utils/rate_limiter.py:43-44 | the sleep ends at the first later clock reading that is at or after the wake-up time; all readings skipped are earlier |
| `RateLimiting.RateLimiter.DropExpired` | wordflux/utils/rate_limiter.py:30-34 | both deques purged by the same strict comparison, by the same count, the history untouched, the fronts live |
| `RateLimiting.RateLimiter.Record` | wordflux/utils/rate_limiter.py:58-61 | exactly one entry appended to each deque, `now` and `(now, est)`, the token total grows by `est`, the history grows by the admission; when both checks passed on purged deques, the clock-monotone invariant (both caps held at every admission) is kept |
| `RateLimiting.RateLimiter.CheckAndRecord` | wordflux/utils/rate_limiter.py:36-61 | the RPM check, then the TPM check, then the append, as the decision function says; nothing changes on a wait |
| `RateLimiting.RateLimiter.Evaluate` | wordflux/utils/rate_limiter.py:27-61 | one pass: the new deques are the purged ones plus the admission; a wait is at least the buffer; after admission the request deque holds at most `rpm` entries and the token sum is within `tpm` unless the new entry is alone (the oversized-request exception); the clock-monotone invariant is kept |
| `RateLimiting.RateLimiter.Answer` | wordflux/utils/rate_limiter.py:27-56 | the answer of a pass at `now` from deques that held `times` and `events` before the run, a ghost specification: `Decide` over both purged at `now`; `TakePass`, `Step` and `Acquire` are proved to answer every pass by it (through `PurgeAfterPurge`), and `TwoRequestsAtZero` and `FirstTwoAdmitted` evaluate it |
| `RateLimiting.RateLimiter.Acquire` | wordflux/utils/rate_limiter.py:21-61 | the returned passes are the run of `acquire` over the readings from the deques held at the call: the first pass is at reading 0, each pass answers as one pass over the starting deques purged at its reading, every pass but the last was told to sleep, and the next pass runs at the first reading at or after the wake-up time; `Some(j)` exactly when the last pass admitted at reading `j`, `None` when the last sleep outlasts the readings; the deques end as the starting ones purged at the last pass's reading, plus the request when admitted; exactly one admission is recorded, at the reading returned; with both caps 0 the first reading admits; a non-decreasing clock keeps the invariant |
| `RateLimiting.RateLimiter.Step` | wordflux/utils/rate_limiter.py:26-61 | one turn of the `while True` loop: the pass answers as over the starting deques purged at its reading; an admission ends the run with the request appended; a wait either outlasts the readings, ending the run with the deques purged, or leaves the next pass pending at a strictly later reading |
| `RateLimiting.RateLimiter.TakePass` | wordflux/utils/rate_limiter.py:27-61 | one pass over deques already purged at the previous pass's reading answers as one pass over the starting deques purged at this reading, extends the run, waits at least the buffer, and leaves those purged deques plus the admission |
| `RateLimiting.PurgeLater` | wordflux/utils/rate_limiter.py:30-31 | purging at one time and then at a later time drops exactly what one purge at the later time drops |
| `RateLimiting.KeptTwice` | wordflux/utils/rate_limiter.py:33-34 | keeping the last `a` entries and then the last `b <= a` of those keeps the last `b` entries |
| `RateLimiting.PurgeAfterPurge` | wordflux/utils/rate_limiter.py:30-34 | for deques in lockstep, two purges in time order leave both deques as one purge at the later time does |
| `RateLimiting.ChainedExtend` | wordflux/utils/rate_limiter.py:40-56 | a pass at the reading where the previous pass's sleep ends extends a run's chain of passes |
| `RateLimiting.RateLimiter.ScheduleExtend` | wordflux/utils/rate_limiter.py:26-61 | a pass that answers as over the starting deques, at the reading where the previous sleep ended, extends the run |
| `RateLimiting.RateLimiter.RunEnds` | wordflux/utils/rate_limiter.py:44-61 | a run whose last pass admitted at reading `i` ends with `Some(i)`; one whose last sleep outlasts the readings ends with `None` |
| `RateLimiting.RateLimiter.PendingAfterWait` | wordflux/utils/rate_limiter.py:40-56 | after a pass told to sleep, with readings left, the next pass is pending where the sleep ends, over the deques purged at the waiting pass |
| `RateLimiting.RateLimiter.SchedulesAgree` | wordflux/utils/rate_limiter.py:26-61 | two runs over the same readings from the same deques agree on every pass both have made |
| `RateLimiting.RateLimiter.ScheduleGoesOn` | wordflux/utils/rate_limiter.py:26-56 | a run goes on after a pass only when that pass was told to sleep, and only to the reading where the sleep ends |
| `RateLimiting.RateLimiter.RunIsLongest` | wordflux/utils/rate_limiter.py:26-61 | no partial run from the same inputs has more passes than a finished one |
| `RateLimiting.RateLimiter.SchedulesEqual` | wordflux/utils/rate_limiter.py:26-61 | two runs of the same length from the same inputs are the same run |
| `RateLimiting.RateLimiter.RunsMakeSamePasses` | wordflux/utils/rate_limiter.py:26-61 | two finished runs from the same inputs made the same passes |
| `RateLimiting.RateLimiter.RunDeterministic` | wordflux/utils/rate_limiter.py:25-61 | the run of `acquire`, and so its answer, is determined by the readings and the starting deques |
| `RateLimiting.RateLimiter.RunAnswer` | wordflux/utils/rate_limiter.py:58-61 | a run answers `Some` of its last pass's reading exactly when that pass admitted, and `None` otherwise |
| `RateLimiting.RateLimiter.AdmittingFirstPassEndsRun` | wordflux/utils/rate_limiter.py:26-61 | when a pass at the first reading admits, the run is that one pass and answers `Some(0)` |
| `RateLimiting.RateLimiter.AdmittedAtFirstPass` | wordflux/utils/rate_limiter.py:58-61 | a run admitted at its first pass leaves the starting deques purged at the first reading, plus the request |
| `RateLimiting.RateLimiter.OrderedLater` | wordflux/utils/rate_limiter.py:27 | the invariant taken at one clock reading still holds at any later one |
| `RateLimiting.RateLimiter.DequesSorted` | wordflux/utils/rate_limiter.py:30-34 | under a clock that never goes back both deques are in non-decreasing time order, which is why popping from the front is enough |
| `RateLimiting.RateLimiter.DequesAreWindow` | wordflux/utils/rate_limiter.py:30-34 | once purged at `now`, the deques hold exactly the admissions of the window ending at `now`: as many requests and the same token sum |
| `RateLimiting.HistoryAfterAdmission` | wordflux/utils/rate_limiter.py:36-61 | an admission that passed both checks keeps the history time-ordered and each cap held at every admission |
| `RateLimiting.AnyWindowBounded` | wordflux/utils/rate_limiter.py:37-44 | if the request cap held at each admission of a time-ordered history, every window of that length holds at most `rpm` admissions |
| `RateLimiting.AnyWindowTokenBounded` | wordflux/utils/rate_limiter.py:47-56 | if the token cap held at each admission (or the admission was alone in its window), every window sums to at most `tpm` tokens or holds a single admission |
| `RateLimiting.RateLimiter.RequestCapHolds` | wordflux/utils/rate_limiter.py:37-44 | under a clock that never goes back, no window of the limiter's history ever held more than `rpm` admissions |
| `RateLimiting.RateLimiter.TokenCapHolds` | wordflux/utils/rate_limiter.py:47-56 | under a clock that never goes back, no window ever summed to more than `tpm` tokens unless it held a single admission |
| `RateLimiting.TwoPerMinuteScenario` | wordflux/utils/rate_limiter.py:36-61 | with `rpm = 2` and three zero-token requests at time 0, the first two are admitted, the third waits 60.5 s, and the retry at 60.5 s is admitted |
| `RateLimiting.RateLimiter.TwoRequestsAtZero` | wordflux/utils/rate_limiter.py:36-61 | with `rpm = 2` and two entries of time 0, a pass at 0 is told to sleep 60.5 s and a pass at 60.5 s admits |
| `RateLimiting.RateLimiter.FirstTwoAdmitted` | wordflux/utils/rate_limiter.py:30-61 | with `rpm = 2`, a pass at 0 admits over empty deques and over one entry of time 0, which it keeps |
| `RateLimiting.RateLimiter.ThirdRequestFirstPass` | wordflux/utils/rate_limiter.py:36-44 | from two entries of time 0, the first pass of a request at 0 is told to sleep 60.5 s |
| `RateLimiting.RateLimiter.ThirdRequestRun` | wordflux/utils/rate_limiter.py:26-61 | from two entries of time 0, over readings 0, 30 s and 60.5 s, `acquire` sleeps once, skips the reading at 30 s and admits at 60.5 s |
| `RateLimiting.RateLimiter.ThirdRequestWaitsAMinute` | wordflux/utils/rate_limiter.py:26-61 | that run is the only one possible over those readings |
| `RateLimiting.AcquireAtZero` | wordflux/utils/rate_limiter.py:21-61 | a request whose clock reads 0, on deques that a pass at 0 admits over and does not purge, is admitted at once and adds one entry of time 0 to each deque |
| `RateLimiting.ThreeRequestsAtZero` | wordflux/utils/rate_limiter.py:13-61 | on a fresh limiter with `rpm = 2` and the token cap off, two requests at time 0 are admitted at once and a third, whose clock reads 0, 30 s and 60.5 s, is admitted at the reading at 60.5 s |
| `Main.Truthy` | wordflux/main.py:40-46 | Python truthiness as `not api_key` tests it: null, false, 0 and the empty string are falsy; `ResolvedKeyComesFromConfig` states that a resolved key is truthy |
| `Main.Get` | wordflux/main.py:36-56 | `config.get(key, default)`: the stored value when the key is present, the default otherwise |
| `Main.Provider` | wordflux/main.py:36 | `config.get("provider", "openai")`; stated by `ProviderDefaultsToOpenAi` |
| `Main.ResolveApiKey` | wordflux/main.py:36-47 | the API key, or the missing-key error carrying the provider: for "gemini" its own key with the fallback to `openai_api_key` when that is falsy or missing, otherwise `openai_api_key`; stated by `ApiKeyFoundIff`, `ResolvedKeyComesFromConfig`, `GeminiKeyPreferred`, `GeminiFallsBackToOpenAi` and `OtherProvidersIgnoreGeminiKey` |
| `Main.ProviderDefaultsToOpenAi` | wordflux/main.py:36 | with no `provider` entry the provider is "openai" |
| `Main.ApiKeyFoundIff` | wordflux/main.py:38-47 | a key is found exactly when the provider's own key is truthy or, for "gemini" only, the OpenAI key is |
| `Main.ResolvedKeyComesFromConfig` | wordflux/main.py:38-47 | a resolved key is truthy and is the value under one of the two key names; a refusal carries the provider |
| `Main.GeminiKeyPreferred` | wordflux/main.py:38-40 | for "gemini" a truthy `gemini_api_key` is used |
| `Main.GeminiFallsBackToOpenAi` | wordflux/main.py:38-42 | for "gemini" with a missing or falsy own key, `openai_api_key` decides the outcome |
| `Main.OtherProvidersIgnoreGeminiKey` | wordflux/main.py:43-44 | for any other provider the `gemini_api_key` entry has no effect |
| `Main.Limits` | wordflux/main.py:55-56 | `rpm_limit` and `tpm_limit` with default 0; stated by `AbsentLimitsNeverBlock` |
| `Main.AbsentLimitsNeverBlock` | wordflux/main.py:55-56 | absent `rpm_limit` and `tpm_limit` are 0, and caps of 0 never block the limiter |
| `Main.Lower` | wordflux/main.py:66 | `file.lower()` on ASCII letters, length kept; `DocxExtensionAnyCase` and `OtherExtensionsSkipped` state the extension test through it |
| `Main.IsDocxCandidate` | wordflux/main.py:66 | the file test: the lower-cased name ends with ".docx" and the name does not start with "~$"; stated by `DocxExtensionAnyCase`, `LockFilesSkipped` and `OtherExtensionsSkipped` |
| `Main.DocxExtensionAnyCase` | wordflux/main.py:66 | a name ending in any case variant of ".docx" is selected exactly when it does not start with "~$" |
| `Main.LockFilesSkipped` | wordflux/main.py:66 | names starting with "~$" are never selected |
| `Main.OtherExtensionsSkipped` | wordflux/main.py:66 | a name whose last five characters do not lower-case to ".docx" is not selected |
| `Main.Join` | wordflux/main.py:67 | POSIX `os.path.join(root, file)`: an absolute name replaces the root, otherwise the two are joined by one "/" unless the root is empty or already ends with "/"; `SelectInSound` and `SelectInComplete` state every selected path as such a join |
| `Main.SelectIn` | wordflux/main.py:65-67 | the joined paths of one directory's candidate files, in listing order; stated by `SelectInConcat`, `SelectInSound` and `SelectInComplete` |
| `Main.SelectDocx` | wordflux/main.py:64-67 | the selection over the whole walk, in walk order; stated by `SelectDocxConcat`, `SelectDocxSound` and `SelectDocxComplete`, and `CollectFiles` is proved to compute it |
| `Main.SelectInConcat` | wordflux/main.py:65-67 | selection within a directory keeps listing order |
| `Main.SelectDocxConcat` | wordflux/main.py:64-67 | selection over the walk keeps walk order |
| `Main.SelectInSound` | wordflux/main.py:65-67 | every path selected in a directory joins the root with a listed candidate name |
| `Main.SelectInComplete` | wordflux/main.py:65-67 | every listed candidate name is selected, joined with the root |
| `Main.SelectDocxSound` | wordflux/main.py:62-67 | every selected path comes from a candidate file of some walk step, joined with that step's root |
| `Main.SelectDocxComplete` | wordflux/main.py:62-67 | every candidate file of every walk step is selected |
| `Main.CollectFiles` | wordflux/main.py:62-67 | the nested loops build exactly the selection of the walk |
| `Main.PlanFiles` | wordflux/main.py:62-76 | a directory with no candidate exits 0, a missing input exits 1, a directory with candidates yields them all, an existing non-directory yields just itself whatever its extension, and a plan to translate is never empty |
| `Main.Attempts` | wordflux/main.py:80-95 | each file's recorded outcome, `Completed` or `Failed`, in file order; stated by `EveryFileAttemptedOnce`, and `TranslateAll` is proved to compute it |
| `Main.Paths` | wordflux/main.py:80-95 | the paths a report records, in order; `EveryFileAttemptedOnce` states that they are exactly the files |
| `Main.EveryFileAttemptedOnce` | wordflux/main.py:80-95 | whatever fails, the report lists every file once and in order, and the i-th entry is a success exactly when the i-th translation succeeded |
| `Main.TranslateAll` | wordflux/main.py:80-95 | the loop records each file's outcome and goes on after a failure |
| `Main.Run` | wordflux/main.py:36-95 | a missing key stops the run before any file is planned or attempted; otherwise the early exits and the per-file report follow the plan |

## Left out

- `asyncio.Lock`: the lock is held across the whole `acquire` loop, sleeps included, so calls never interleave. The model is sequential for that reason.
- `asyncio.sleep` and `time.time()`: replaced by the sequence of clock readings given to `Acquire`. A `Wait(d)` skips the readings taken before `now + d`.
- Float seconds: time is in integer milliseconds. Float rounding in `window - (now - oldest) + 0.5` is not modelled.
- Logging in both files, and the `print` output of `main`: side effects with no decisions in them.
- YAML loading (`load_config`, main.py:12-24), including a missing or malformed config file: the configuration map is an input.
- A YAML file that loads to something other than a mapping is not modelled.
- Configuration values other than null, booleans, integers and strings (floats, lists, mappings): their truthiness is not modelled.
- `argparse`, `os.makedirs`, `os.walk`, `os.path.isdir` and `os.path.exists`: the walk and the kind of input path are inputs. The output directory is not modelled.
- The `Spinner`, `DocxTranslator` and its `translate`: their source is not part of this model. A file's translation is an opaque success or failure given by the `succeeded` parameter, and depends only on its path.
- The values `model`, `source_lang`, `target_lang`, `max_chunk_size`, `max_concurrent` and `openai_api_base_url` (main.py:49-54): read and passed on unchanged, with no decision in `main`.
- How the limits reach the rate limiter inside `DocxTranslator`: not part of this model. `Main.AbsentLimitsNeverBlock` assumes they reach it unchanged.
- wordflux/utils/gemini_client.py: a thin SDK wrapper, not part of this model.
- `Main.Lower`: lowers ASCII letters only, where Python's `str.lower` follows Unicode. No non-ASCII character lowers to one of ".docx", so the file test is the same.
- `Main.Join`: POSIX `os.path.join` only.
- `RateLimiting.RateLimiter.Acquire`: returns `None` when the given clock readings run out. The source keeps sleeping until it admits.
- `RateLimiting.RateLimiter.RequestCapHolds`: the any-window bound holds only while the clock never goes back and the window is not negative. A clock that jumps back is not covered.
- `RateLimiting.RateLimiter.TokenCapHolds`: also needs every token estimate to be non-negative. A negative estimate lowers the window sum, and the bound at admission then says nothing about later windows.
- `RateLimiting.TwoPerMinuteScenario`: stated on the decision function and the purge that `Evaluate` is proved to follow. `RateLimiting.ThreeRequestsAtZero` states the same scenario on a limiter object.
