# cykel core in Dafny

cykel is a desktop period tracker. Its Rust back end keeps one encrypted data file. While the app is unlocked it holds the passphrase and the decrypted `AppData` in memory:
- day logs (a flow level and notes per date);
- symptoms;
- cycles rebuilt from the logs;
- settings.

This project models four parts of that back end and proves what they promise.

- **Data model** (`models.dfy`, module `Models`). The records of `models.rs` become datatypes: `FlowLevel`, `SymptomType`, `Cycle`, `DayLog`, `Symptom`, `Prediction`, `FertilityWindow`, `CycleStats`, `AppSettings`, `AppData` and `MonthData`. Their defaults are modelled too.
  - Dates are integer day numbers.
  - `u8` and `u32` are newtypes with their ranges.
- **Vault envelope** (`crypto.dfy`, module `Crypto`). `encrypt` lays out salt (32 bytes), nonce (12 bytes), then the AEAD ciphertext of `"CYKEL_V1"` followed by the plaintext. `decrypt` inverts this: it checks the length, splits at fixed offsets, opens the ciphertext, and checks and strips the magic prefix.
  - Argon2id and AES-256-GCM (NIST SP 800-38D) are function-valued fields of a `Primitives` value.
  - The properties the envelope relies on are predicates over those fields: opening what was sealed and failing under another key. Lemmas that need them require them.
- **Cycle reconstruction** (`cycles.dfy`, module `Cycles`). `rebuild_cycles` is an imperative loop over the sorted, deduplicated flow dates.
  - It is proved against `RebuiltFrom`, a declarative description: the unique decomposition of the flow days into maximal runs with gaps of at most 2 days, every cycle closed except possibly the last.
  - The last cycle is open exactly when its run ended at most 2 days before `today`.
  - `RebuiltUnique` shows that the description admits only one cycle list.
- **Prediction engine** (`prediction.rs` as module `Prediction` in `prediction.dfy`):
  - `predict`, `fertility_window`, `cycle_stats`, `calc_internals`, `mean` and `std_deviation`, as functions over the cycle list;
  - lemmas that express the forecast through the window of the (at most) six latest closed cycles;
  - the source's own test cases as lemmas.
- **Session commands** (`commands.dfy`, module `Commands`):
  - `AppState` is a class with the two fields the source keeps behind mutexes, `passphrase` and `data`;
  - the commands are its methods;
  - the encrypted data file is a `Vault` class that holds the passphrase and record last saved;
  - the in-place steps of `log_day` are methods with loops: `iter_mut().find` then assign or push, and `retain` then push. Each is proved equal to a specification function whose properties are proved separately.

`wrappers.dfy` holds the `Option` and `Result` datatypes. `collections.dfy` (module `Collections`) holds `Filter`, the `iter().filter(..).collect()` that `get_month`, `log_day` and the prediction engine share.

Modelling conventions:
- The clock (`chrono::Local::now`) is a `today` parameter.
- The random salt and nonce are parameters of `Encrypt`.
- The square root inside `std_deviation` is a parameter `sqrt: real -> real`.
- The calendar `get_month` consults (`NaiveDate::from_ymd_opt`) is a parameter `calendar: (int, int) -> Option<Date>`. It gives the day number of the first day of a month, or `None` where chrono builds no date.
- `f64` and `f32` arithmetic is exact real arithmetic.
- `f64::round` is `Round` (halves away from zero). The forecast rounds the real mean gap and mean period with it.
- A ratio `0/0` in the confidence is the `NaN` case of `Confidence`.
- `decrypt` rejects inputs shorter than `SALT_LEN + NONCE_LEN + MAGIC.len()` = 52 bytes with `InvalidFormat`. A failed authentication or a failed magic check gives `Decryption`.

## Model

| member | source | states |
|---|---|---|
| Models.DefaultSettings | src-tauri/src/models.rs:89-97 | default settings: auto-lock 5 minutes, no wipe-after-attempts limit, fertility hidden |
| Models.DefaultAppData | src-tauri/src/models.rs:73-79 | default data: no cycles, no day logs, no symptoms, default settings |
| Models.SettingsFromStored | src-tauri/src/models.rs:81-87 | a stored record without `show_fertility` reads as `false`; the other fields are kept as stored |
| Crypto.SealEnvelope | src-tauri/src/crypto.rs:43-73 | success exactly when both the key derivation and the seal succeed; the key-derivation failure gives `KeyDerivation` and the seal failure gives `Encryption`, each exactly then; success is salt ++ nonce ++ the seal of MAGIC ++ plaintext |
| Crypto.Encrypt | src-tauri/src/crypto.rs:43-73 | building payload and output by appending gives the envelope, and under a correct AEAD `decrypt` of it returns the plaintext |
| Crypto.Decrypt | src-tauri/src/crypto.rs:77-107 | `InvalidFormat` exactly for inputs under 52 bytes; `KeyDerivation` exactly when the key cannot be derived from the first 32 bytes; never `Encryption`; success means the ciphertext after byte 44 opened to MAGIC ++ result |
| Crypto.DecryptFailuresAgree | src-tauri/src/crypto.rs:90-106 | an authentication failure and a magic mismatch both give `Decryption`; with the magic present, the result is the bytes after the first 8 |
| Crypto.RoundTrip | src-tauri/src/crypto.rs:113-122 | decrypt(p, encrypt(p, data)) == data for every salt and nonce, given a correct AEAD |
| Crypto.WrongPassphraseFails | src-tauri/src/crypto.rs:124-131 | an envelope sealed under one passphrase fails under any other passphrase that derives a different key from its salt: `Decryption`, or `KeyDerivation` when no key can be derived |
| Crypto.EnvelopeLength | src-tauri/src/crypto.rs:66-70 | the envelope is 44 header bytes plus MAGIC, the plaintext and the 16-byte tag |
| Cycles.FlowDates | src-tauri/src/commands.rs:128-133 | the collected dates are exactly those of logs whose flow level is not `None` |
| Cycles.InsertUnique | src-tauri/src/commands.rs:134-135 | insertion keeps the sequence strictly increasing and adds exactly the new date |
| Cycles.SortDedup | src-tauri/src/commands.rs:134-135 | `sort` then `dedup` gives a strictly increasing sequence with the same members |
| Cycles.RebuildCycles | src-tauri/src/commands.rs:127-174 | the loop's result meets `RebuiltFrom`: empty without flow days, else the maximal-run decomposition of the flow days, all closed but the last, which is open exactly when today - last flow day <= 2 |
| Cycles.FinishRebuild | src-tauri/src/commands.rs:160-173 | closing or leaving open the final run by the 2-day rule, then appending it, gives `RebuiltFrom` |
| Cycles.SingleRun | src-tauri/src/commands.rs:143-144 | the first flow day alone is a one-cycle decomposition |
| Cycles.ExtendRun | src-tauri/src/commands.rs:147-148 | a day at most 2 days after the current run's end extends that run, and the decomposition invariant holds |
| Cycles.StartRun | src-tauri/src/commands.rs:149-157 | a day more than 2 days after the current run's end closes that run and opens a new one, and the invariant holds |
| Cycles.CloseLast | src-tauri/src/commands.rs:161-171 | giving the last cycle end `None` or its run end keeps the decomposition |
| Cycles.SameSpans | src-tauri/src/commands.rs:142-173 | the decomposition depends only on each cycle's start and run end |
| Cycles.StartsIncrease | src-tauri/src/commands.rs:142-158 | cycle starts strictly increase, and each run ends more than 2 days before the next cycle starts |
| Cycles.InExactlyOneCycle | src-tauri/src/commands.rs:142-171 | every flow day lies in exactly one cycle's [start, run end] |
| Cycles.FlowDays | src-tauri/src/commands.rs:128-135 | the days cycles are built from are strictly increasing and exactly the dates of flow logs |
| Cycles.BoundsAreFlowDays | src-tauri/src/commands.rs:128-158 | each cycle starts and ends on a date whose log records flow |
| Cycles.StartOpensRun | src-tauri/src/commands.rs:146-156 | a cycle's start is the first flow day or more than 2 days after the one before |
| Cycles.OpenerIsStart | src-tauri/src/commands.rs:146-156 | a flow day that opens a run is the start of the cycle containing it |
| Cycles.EndClosesRun | src-tauri/src/commands.rs:146-156 | a run's end is the last flow day or more than 2 days before the next |
| Cycles.CloserIsEnd | src-tauri/src/commands.rs:146-156 | a flow day that closes a run is the end of the run containing it |
| Cycles.StartsOpenRuns | src-tauri/src/commands.rs:146-169 | the starts are strictly increasing and are exactly the flow days that open a run |
| Cycles.RunEndsCloseRuns | src-tauri/src/commands.rs:146-170 | the run ends are strictly increasing and are exactly the flow days that close a run |
| Cycles.DecompositionsAgree | src-tauri/src/commands.rs:142-173 | two decompositions of the same days have the same starts and run ends |
| Cycles.RebuiltAgree | src-tauri/src/commands.rs:127-174 | two rebuilds of the same logs have the same starts and run ends |
| Cycles.RebuiltCycle | src-tauri/src/commands.rs:150-171 | each rebuilt cycle is (start, Some(run end)), except that the last is open when today - last flow day <= 2 |
| Cycles.RebuiltUnique | src-tauri/src/commands.rs:127-174 | the rebuild result is determined by the logs and today: two results meeting `RebuiltFrom` are equal |
| Prediction.Completed | src-tauri/src/prediction.rs:105 | the filter keeps only cycles with an end date, never more than given, each as often as it was given; it is `Filter` by `Closed`, so order is kept |
| Prediction.CompletedMembers | src-tauri/src/prediction.rs:105 | a cycle is kept exactly when it has an end date |
| Prediction.InsertByStart | src-tauri/src/prediction.rs:111 | insertion keeps the order by start and adds exactly one element (multiset) |
| Prediction.InsertByStartStable | src-tauri/src/prediction.rs:111 | one insertion step of the stable sort puts the cycle after every cycle not starting later and before every cycle starting later |
| Prediction.SortByStart | src-tauri/src/prediction.rs:111 | `sort_by_key(start_date)` is sorted by start and a permutation |
| Prediction.SortedCompleted | src-tauri/src/prediction.rs:51-52 | the closed cycles sorted by start: sorted, all closed, as many as were closed |
| Prediction.SortedCompletedMembers | src-tauri/src/prediction.rs:51-52 | exactly the closed cycles appear after sorting |
| Prediction.Recent | src-tauri/src/prediction.rs:113-114 | the window is min(n, 6) cycles, newest first: element i is the (i+1)-th from the end |
| Prediction.RecentGaps | src-tauri/src/prediction.rs:116-119 | one absolute start-to-start gap per adjacent pair of the window, never negative |
| Prediction.ForwardGaps | src-tauri/src/prediction.rs:71-74 | one forward start gap per adjacent pair, non-negative on sorted input |
| Prediction.PeriodLengths | src-tauri/src/prediction.rs:66-69 | for closed cycles, one inclusive length end - start + 1 per cycle |
| Prediction.Round | src-tauri/src/prediction.rs:9 | `f64::round`: within 0.5 of the argument, with halves rounded away from zero |
| Prediction.Clamp | src-tauri/src/prediction.rs:17 | `clamp(lo, hi)`: the result lies in [lo, hi]; x when x already does, lo below, hi above |
| Prediction.CalcInternals | src-tauri/src/prediction.rs:104-145 | `None` exactly below 2 closed cycles; otherwise min(n, 6) - 1 non-negative gaps, averaging to `avgCycle` |
| Prediction.LatestStart | src-tauri/src/prediction.rs:137 | the last sorted closed cycle is closed and starts no earlier than any closed cycle |
| Prediction.ConfidenceOf | src-tauri/src/prediction.rs:13-18 | exactly 0.5 from fewer than 2 gaps; otherwise in [0.1, 0.95], or NaN only when the average is 0 |
| Prediction.Forecast | src-tauri/src/prediction.rs:8-24 | predicted end >= predicted start, with the confidence bounds above |
| Prediction.Predict | src-tauri/src/prediction.rs:5-25 | `None` exactly when fewer than 2 cycles are closed; end >= start; confidence 0.5 with exactly two closed cycles, else within [0.1, 0.95] or NaN |
| Prediction.PredictOfWindow | src-tauri/src/prediction.rs:5-25 | the same figures stated through the window of the six latest closed cycles |
| Prediction.AverageCycleOfWindow | src-tauri/src/prediction.rs:114-137 | avg cycle = the window's span over its gap count; last start = latest closed start |
| Prediction.AveragePeriodOfWindow | src-tauri/src/prediction.rs:125-135 | avg period is the mean inclusive period length of the window |
| Prediction.RecentGapSum | src-tauri/src/prediction.rs:116-119 | a newest-first window's gaps add up to newest start - oldest start |
| Prediction.ForwardGapSum | src-tauri/src/prediction.rs:71-74 | the forward gaps add up to last start - first start |
| Prediction.RecentDescending | src-tauri/src/prediction.rs:111-114 | the window of a sorted list has non-increasing starts |
| Prediction.WindowMeanGap | src-tauri/src/prediction.rs:116-130 | the mean gap of the window is its span over its gap count |
| Prediction.PredictedStartFromSpan | src-tauri/src/prediction.rs:8-9 | predicted start = latest closed start + round(window span / gap count) |
| Prediction.PredictedLengthFromWindow | src-tauri/src/prediction.rs:10-11 | the predicted period lasts max(0, round(mean of inclusive window period lengths) - 1) days past the start |
| Prediction.ZeroMeanGapRepeats | src-tauri/src/prediction.rs:116-130 | a zero mean gap means every window cycle starts on the latest start |
| Prediction.RepeatedStartsZeroGaps | src-tauri/src/prediction.rs:116-119 | equal starts give only zero gaps |
| Prediction.ZeroGapsNaN | src-tauri/src/prediction.rs:16-17 | two or more zero gaps give 0/0, a NaN confidence, given sqrt(0) = 0 |
| Prediction.NaNConfidenceIffRepeatedStart | src-tauri/src/prediction.rs:13-18 | a NaN confidence only when all window starts coincide; conversely with at least 3 in the window and sqrt(0) = 0 |
| Prediction.NonNegativeMean | src-tauri/src/prediction.rs:147-152 | the mean of non-negative values is non-negative |
| Prediction.PredictedAfterEveryStart | src-tauri/src/prediction.rs:8-9 | the predicted start is on or after the start of every closed cycle |
| Prediction.CompletedAppend | src-tauri/src/prediction.rs:105 | appending a closed cycle appends it to the closed list |
| Prediction.InsertBeforeAll | src-tauri/src/prediction.rs:111 | a cycle older than all others sorts to the front |
| Prediction.RecentIgnoresFront | src-tauri/src/prediction.rs:114 | with six or more sorted cycles, a new oldest cycle leaves the window unchanged |
| Prediction.SortedWithOlder | src-tauri/src/prediction.rs:105-111 | a closed cycle older than every closed cycle sorts to the front |
| Prediction.SameWindowSameInternals | src-tauri/src/prediction.rs:113-144 | histories with the same window give the same internals |
| Prediction.SameWindowSamePrediction | src-tauri/src/prediction.rs:5-25 | histories with the same window give the same forecast |
| Prediction.OlderCycleIgnored | src-tauri/src/prediction.rs:113-114 | with at least 6 closed cycles, adding an older closed cycle leaves the forecast unchanged |
| Prediction.Fertility | src-tauri/src/prediction.rs:30-47 | `None` exactly when `predict` is; ovulation = predicted start - 14; fertile start = ovulation - 5; peak start = ovulation - 2; fertile end = peak end = ovulation |
| Prediction.Minimum | src-tauri/src/prediction.rs:90 | `min`: `None` on empty input, otherwise a member no larger than any member |
| Prediction.Maximum | src-tauri/src/prediction.rs:91 | `max`: `None` on empty input, otherwise a member no smaller than any member |
| Prediction.Stats | src-tauri/src/prediction.rs:50-95 | total = closed count; all-`None` with none closed; period and last period set from one closed cycle on; cycle-length fields set exactly from two on; 0 <= shortest <= longest |
| Prediction.StatsLastPeriod | src-tauri/src/prediction.rs:76-93 | the last period start and end come from a closed cycle with the latest start |
| Prediction.StatsAverageCycle | src-tauri/src/prediction.rs:80-91 | the average cycle length is the start span over the gap count and lies between shortest and longest |
| Prediction.ForwardMeanGap | src-tauri/src/prediction.rs:71-84 | the mean forward gap is the start span over the gap count |
| Prediction.Mean | src-tauri/src/prediction.rs:147-152 | the mean of no values is 0; otherwise the mean times the count is the sum |
| Prediction.SampleVariance | src-tauri/src/prediction.rs:159-160 | the variance is non-negative and, times n - 1, equals the sum of squared deviations from the mean |
| Prediction.StdDeviation | src-tauri/src/prediction.rs:154-162 | 0 below two values; otherwise the square root of the sample variance |
| Prediction.MeanWithin | src-tauri/src/prediction.rs:147-152 | a mean lies within any bounds of its values |
| Prediction.MeanBetween | src-tauri/src/prediction.rs:147-152 | a mean lies between the minimum and the maximum |
| Prediction.WithinExtremes | src-tauri/src/prediction.rs:90-91 | every gap lies between `min` and `max` |
| Prediction.SquaredDeviations | src-tauri/src/prediction.rs:159-160 | the sum of squared deviations is never negative |
| Prediction.OneCycleNoPrediction | src-tauri/src/prediction.rs:178-182 | a single closed cycle gives no forecast |
| Prediction.TwoCyclesPrediction | src-tauri/src/prediction.rs:184-195 | starts 28 days apart, 5-day periods: start day 56, end day 60, confidence 0.5 |
| Prediction.TwoCyclesFertility | src-tauri/src/prediction.rs:197-214 | for the same cycles: ovulation day 42, fertile window from day 37 |
| Prediction.TwoCyclesStats | src-tauri/src/prediction.rs:216-226 | for the same cycles: total 2, average cycle 28.0, average period 5.0 |
| Collections.Filter | src-tauri/src/commands.rs:190-202 | `filter().collect()` keeps exactly the qualifying elements, each as often as given, never more than given |
| Collections.FilterCount | src-tauri/src/commands.rs:190-195 | `filter().cloned().collect()` keeps each qualifying element exactly as often as it occurs and drops every other |
| Collections.FilterAppend | src-tauri/src/commands.rs:110 | filtering a concatenation filters each part |
| Collections.FilterTwice | src-tauri/src/commands.rs:110 | a stronger second filter sees through the first |
| Collections.FilterNone | src-tauri/src/commands.rs:110 | nothing is kept when nothing qualifies |
| Collections.FilterAll | src-tauri/src/commands.rs:110 | everything is kept when everything qualifies |
| Commands.FirstWithDate | src-tauri/src/commands.rs:98 | `iter_mut().find`: `None` exactly when no log has the date, otherwise the first log with it |
| Commands.Upsert | src-tauri/src/commands.rs:98-107 | an existing date keeps the count and changes only the first log with that date, to the new flow and notes, every other log unchanged; a new date appends exactly one log; unique dates stay unique and that date's log is the new one |
| Commands.UpsertLog | src-tauri/src/commands.rs:98-107 | the find-then-assign-or-push loop computes `Upsert` |
| Commands.ClampSeverity | src-tauri/src/commands.rs:115 | `clamp(1, 3)`: in range kept, below to 1, above to 3 |
| Commands.OtherDays | src-tauri/src/commands.rs:110 | `retain(date != d)` keeps exactly the symptoms of other dates and never adds any |
| Commands.ReplaceSymptoms | src-tauri/src/commands.rs:110-117 | the symptoms of other dates are kept exactly; the logged date has exactly the entered symptoms |
| Commands.Entered | src-tauri/src/commands.rs:111-117 | one symptom per entry, in order, on the date, of the entry's type, severity clamped |
| Commands.ReplaceSymptomsEffect | src-tauri/src/commands.rs:110-117 | other dates' symptoms are unchanged in content and order; the logged date has exactly the entered symptoms |
| Commands.EnteredSeverities | src-tauri/src/commands.rs:110-117 | every symptom of the logged date has severity in 1..3 |
| Commands.ReplaceDaySymptoms | src-tauri/src/commands.rs:110-117 | the retain-then-push loops compute the replacement |
| Commands.ClampMinutes | src-tauri/src/commands.rs:255 | `clamp(1, 60)`: in range kept, below to 1, above to 60 |
| Commands.FirstOpen | src-tauri/src/commands.rs:212 | `None` exactly when no cycle is open, otherwise the first open cycle |
| Commands.Predictions | src-tauri/src/commands.rs:204 | at most one forecast, present exactly from two closed cycles on, and equal to `predict` |
| Commands.LogsWithin | src-tauri/src/commands.rs:190-195 | the logs dated within the month, each as often as stored, and no others |
| Commands.SymptomsWithin | src-tauri/src/commands.rs:197-202 | the symptoms dated within the month, each as often as stored, and no others |
| Commands.MonthView | src-tauri/src/commands.rs:190-224 | the month's logs and symptoms are exactly those dated within it, in stored order, each as often as stored; the predictions are `get_predictions`' list, fertility appears only when shown, the current cycle is the first open one, the stats are `cycle_stats` |
| Commands.CurrentCycleAfterRebuild | src-tauri/src/commands.rs:212 | after a rebuild the current cycle exists exactly when the last flow day is at most 2 days before today, and it is the last cycle |
| Commands.OnlyLastOpen | src-tauri/src/commands.rs:212 | with all but the last cycle closed, the current cycle is the last one when open, else none |
| Commands.Vault.Exists | src-tauri/src/storage.rs:29-31 | a data file exists exactly when some passphrase loads it |
| Commands.Vault.Load | src-tauri/src/storage.rs:43-49 | loading succeeds exactly with the passphrase last saved under, and gives the record saved |
| Commands.Vault.Save | src-tauri/src/storage.rs:34-40 | the file now holds the record under the passphrase, and loading with it gives the record back |
| Commands.Vault.Wipe | src-tauri/src/storage.rs:52-58 | afterwards no data file exists |
| Commands.AppState.constructor | src-tauri/src/commands.rs:18-23 | a new state holds no passphrase and no data |
| Commands.IsSetup | src-tauri/src/commands.rs:48-51 | set up exactly when some passphrase loads the data file |
| Commands.AppState.Lock | src-tauri/src/commands.rs:26-36 | passphrase and data become `None` |
| Commands.AppState.SaveData | src-tauri/src/commands.rs:38-45 | unlocked: saves the data under the passphrase; locked: "app is locked", file unchanged |
| Commands.AppState.Setup | src-tauri/src/commands.rs:54-62 | saves default data under the new passphrase and holds both; the app is then set up |
| Commands.AppState.Unlock | src-tauri/src/commands.rs:65-76 | a wrong passphrase gives `Ok(false)` and changes nothing; the right one holds the loaded data with rebuilt cycles, saves it and gives `Ok(true)` |
| Commands.AppState.LockCommand | src-tauri/src/commands.rs:79-82 | the state is locked and the result is `Ok` |
| Commands.AppState.LogDay | src-tauri/src/commands.rs:85-124 | locked: "app is locked" and nothing changes; else logs upserted, symptoms replaced, settings kept, cycles rebuilt and saved |
| Commands.AppState.ToggleFertility | src-tauri/src/commands.rs:242-249 | locked: fails unchanged; else only `show_fertility` changes, then it saves |
| Commands.AppState.UpdateSettings | src-tauri/src/commands.rs:252-259 | locked: fails unchanged; else only `auto_lock_minutes` changes, to the value clamped into 1..60, then it saves |
| Commands.AppState.WipeAllData | src-tauri/src/commands.rs:269-272 | locks and removes the data file |
| Commands.NextMonthStart | src-tauri/src/commands.rs:182-187 | December continues with January of the next year; any other month with the next month of the same year |
| Commands.AppState.GetMonth | src-tauri/src/commands.rs:177-225 | locked: "app is locked"; month without a first day: "invalid date"; unlocked with both first days known: exactly the month view from the first of the month to the day before the next month's first |
| Commands.AppState.GetPredictions | src-tauri/src/commands.rs:228-232 | locked exactly when "app is locked"; unlocked always `Ok`, at most one forecast, equal to `predict` |
| Commands.AppState.GetStats | src-tauri/src/commands.rs:235-239 | locked exactly when "app is locked"; unlocked always `Ok`, `cycle_stats` of the cycles |
| Commands.AppState.GetSettings | src-tauri/src/commands.rs:275-279 | locked exactly when "app is locked"; unlocked always `Ok`, the current settings |
| Commands.LockedCommandsFail | src-tauri/src/commands.rs:26-36 | after `lock`, `log_day`, `toggle_fertility`, `update_settings`, `get_month` and `get_settings` all fail with "app is locked" |

## Left out

- Argon2id and AES-256-GCM internals (src-tauri/src/crypto.rs:29-39, 50, 58-60, 87-92) are library code. They are function-valued parameters, and the properties the envelope needs of them are predicates the lemmas require; no cryptographic strength is modelled. `KeyBinding` (opening under any other key fails) together with `AeadCorrect` describes an ideal cipher: real AES-256-GCM meets it only with overwhelming probability, so `Crypto.WrongPassphraseFails` holds for that ideal cipher.
- `rand::thread_rng` (src-tauri/src/crypto.rs:46-47): the salt and nonce are parameters.
- `zeroize` calls: memory scrubbing is not observable in a value model. Lock only makes the fields `None`.
- Tauri command plumbing (`State`), `Mutex` locking and poisoning errors, and src-tauri/src/main.rs are framework wiring. The commands are sequential methods of one object.
- Commands.Vault: file-system I/O, the data directory, and serde_json encoding in src-tauri/src/storage.rs are not modelled. The file is represented by what decrypting it yields. I/O, serialization and crypto failures on save and load are not modelled: a save always succeeds, and a load fails only for a passphrase other than the one saved under.
- Commands.Vault.Load: a passphrase that derives the same key from the file's salt as the saved one (a key-derivation collision) would open the real file; the model treats every passphrase but the saved one as wrong.
- Commands.AppState.Unlock: the storage error that `unlock` turns into `Ok(false)` is modelled only as a wrong passphrase.
- Commands.AppState.LogDay: date-string parsing (`parse_from_str`, src-tauri/src/commands.rs:92) and its error are not modelled, because dates are given as day numbers.
- Commands.AppState.GetMonth: `NaiveDate::from_ymd_opt` and the calendar are the `calendar` parameter. The `i32`/`u32` overflow of `year + 1` and `month + 1` is not modelled.
- `chrono::Local::now` (src-tauri/src/commands.rs:160) is the `today` parameter.
- UUIDs of cycles (src-tauri/src/commands.rs:151, 168) are arbitrary and are omitted from `Cycle`.
- `export_data` (src-tauri/src/commands.rs:262-266) is JSON pretty-printing.
- Floating point: `f64`/`f32` values are exact reals. The `f32` casts and rounding of the averages and of the confidence (src-tauri/src/prediction.rs:17, 83, 88) are not modelled.
- Prediction.StdDeviation: the square root is an uninterpreted parameter, so the confidence is proved only for its branch structure and clamp, never for a particular value.
- Date arithmetic uses unbounded integers. chrono's date range limits, and `i64` overflow of the gap sums, are not modelled.
