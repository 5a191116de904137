# Crypto market monitor: change detection and baseline reconciliation

This project models the core of `crypto_market_monitor.py`. The monitor polls eight
macroeconomic and sentiment indicators. It compares each fresh value with the last
value stored in `news_economic.json`. For every change it sends an alert that names a
direction and a market impact. It rewrites the file only when something changed.

Modules:

- `Wrappers` (`wrappers.dfy`): `Option`, which stands for Python's `None`.
- `Indicators` (`indicators.dfy`): the closed set of eight indicators, their keys
  (`Name`), the fetch order (`FetchOrder`) and the impact catalog (`Impact`).
- `Sequences` (`sequences.dfy`): `Collect`, the present results of a partial
  function over a sequence, in order, with its general lemmas.
- `Reconciler` (`reconciler.dfy`): the loop of `check_and_log_data` and what it
  computes.
  - The specification functions are `Detect` (one entry), `Changes` (the run, in
    table order), `Notifications` and `ChangedIndicators` (the alerts and
    `updated_indicators`), `Overrides` (`new_data`), `Merge`
    (`{**prev_data, **new_data}`), `DirectionOf` (the direction rule) and
    `FormatMessage`/`Message` (the alert text).
  - The method `Reconcile` is the source's loop. It is proved to compute exactly
    those functions.
  - The lemmas state what a run promises.
- `History` (`history.dfy`): what the baseline holds after a series of runs. It holds
  the last value reported for each indicator.
- `BaselineStore` (`store.dfy`): the file as an in-memory class `BaselineFile` with
  a write counter. It also holds the initial baseline, start-up initialisation, the
  load with its fallback, and the run `CheckAndLogData`. The method `RerunIsQuiet`
  shows that a repeated run is silent.

Modelling choices:

- Values are exact `real`s. The code only uses `!=` and `>` on them.
- A stored record is `Record(value, date)`, with JSON `null` as `None`. A missing key
  reads as a stored value of `None`. So does a stored record without a `value` field,
  which the model writes as `Record(None, date)`.
- The fetchers are one parameter, `fetch: Indicator -> Observation`. A failed fetch
  is `Observation(None, None)`.
- The notifier is the returned sequence of sent alerts, in sending order.
- How Python renders a float inside the f-string is a parameter, `render: real -> string`.

Points where the model follows what the code does rather than what it says or suggests:

- `initialize_data_file` (lines 17-33) says in a comment that it also initialises a
  corrupt file. Its code only initialises a missing or empty file. A corrupt file is
  left as it is and loads as an empty baseline (lines 217-219).
- The alert text is `<key> 更新: 由 <prev> 变为 <current> (<label>, <impact>)`
  (line 287).
- The stored file may hold keys outside the eight indicators. The merge keeps them
  unchanged (line 297).
- An equal value never updates the stored date. So "last known good" holds for the
  value only, and `History.LastKnownGood` is stated for the value.

## Model

| member | source | states |
|---|---|---|
| `Indicators.FetchOrder` | crypto_market_monitor.py:224-233 | the fetch table lists each of the eight indicators exactly once, each at its fixed position in the source's order |
| `Indicators.NameInjective` | crypto_market_monitor.py:224-233 | different indicators are stored under different keys |
| `Indicators.Impact` | crypto_market_monitor.py:238-271 | the catalog text for an indicator and a direction; every text ends with a mood emoji |
| `Indicators.ImpactMoods` | crypto_market_monitor.py:238-271 | every catalog text carries a mood; the increase and decrease texts of an indicator carry different moods, and at least one of them is bullish |
| `Reconciler.FetchTable` | crypto_market_monitor.py:224-233 | the fresh table has one entry per indicator, at its fixed position, with that indicator's fetched observation, and no indicator twice |
| `Reconciler.PrevValue` | crypto_market_monitor.py:277 | the stored value of a key: `None` for a missing key, and a present value only when the key holds a record with that value |
| `Reconciler.DirectionOf` | crypto_market_monitor.py:283 | an increase only when a stored value exists and the fresh value exceeds it; a fresh value below the stored one is a decrease |
| `Reconciler.Detect` | crypto_market_monitor.py:276-278 | no change exactly when the fresh value is `None` or equals the stored one; a change carries the entry's indicator, fresh value and date, and a stored value that differs from the fresh one |
| `Reconciler.Overrides` | crypto_market_monitor.py:279-282 | every changed indicator has an override, and every override stores a present value |
| `Reconciler.Merge` | crypto_market_monitor.py:297 | the merged baseline has the keys of both maps; an overridden key takes the new record; every other key keeps its stored record |
| `Reconciler.Committed` | crypto_market_monitor.py:296-297 | the committed baseline keeps every stored key, and a key it adds holds a present value |
| `Reconciler.FirstObservationIsDecrease` | crypto_market_monitor.py:283 | with no stored value the direction is always decrease |
| `Reconciler.DirectionOfChange` | crypto_market_monitor.py:283 | for a stored value that differs from the fresh one, the direction is increase iff the fresh value is greater, decrease iff it is smaller |
| `Reconciler.FormatMessage` | crypto_market_monitor.py:286-287 | the alert starts with the key and ends with the impact text and the closing parenthesis (the middle parts are stated by `MessageShowsPrevious` and `MessageShowsDirection`) |
| `Reconciler.Message` | crypto_market_monitor.py:283-287 | the alert for a change starts with the indicator's key and ends with the catalog text for the change's direction |
| `Reconciler.MessageShowsPrevious` | crypto_market_monitor.py:286-287 | the alert starts with the key, then `无记录的` when there is no stored value, else the rendered stored value, then the rendered fresh value |
| `Reconciler.MessageShowsDirection` | crypto_market_monitor.py:284-287 | the alert ends with `📈 增加` and the impact text iff the direction is increase, and with `📉 减少` and the impact text iff it is decrease |
| `Reconciler.Reconcile` | crypto_market_monitor.py:273-293 | the loop sends exactly one alert per detected change, in table order, each the catalog-based message for that change; it lists the changed indicators in the same order; `new_data` equals the overrides of those changes |
| `Reconciler.ChangedIndicatorsAt` | crypto_market_monitor.py:291 | `updated_indicators` has one entry per change, the changed indicator, in the same order |
| `Reconciler.ChangesMembership` | crypto_market_monitor.py:275-278 | a change is recorded iff some entry has a present value that differs from the stored one (a missing key counts as `None`) |
| `Reconciler.ChangesAppend` | crypto_market_monitor.py:275-291 | changes keep the table order: the changes of two consecutive parts of the table are those of the first part followed by those of the second |
| `Reconciler.ChangesDistinct` | crypto_market_monitor.py:275-291 | in a table without repeated indicators, no indicator changes twice in one run |
| `Reconciler.OverridesKeys` | crypto_market_monitor.py:279-282 | the overridden keys are exactly the keys of the changed indicators |
| `Reconciler.OverridesValue` | crypto_market_monitor.py:279-282 | each change's override is `{value: fresh value, date: fresh date}` |
| `Reconciler.OverriddenKeys` | crypto_market_monitor.py:275-282 | a key is overridden iff some table entry under that key changed |
| `Reconciler.CommittedChanged` | crypto_market_monitor.py:276-297 | in the committed baseline, a changed indicator holds its fresh value and date |
| `Reconciler.CommittedUnchanged` | crypto_market_monitor.py:297 | a key with no changed entry (failed fetch, equal value, or a key outside the table) keeps its stored record, or stays absent |
| `Reconciler.UnchangedEntry` | crypto_market_monitor.py:276-297 | an entry that is not a change gets no alert and leaves its stored record as it was |
| `Reconciler.NullObservationIgnored` | crypto_market_monitor.py:275-276 | a failed fetch gets no alert and leaves its stored record as it was |
| `Reconciler.EqualValueIgnored` | crypto_market_monitor.py:277-278 | a fresh value equal to the stored one gets no alert and leaves the stored record as it was, whatever the fresh date |
| `Reconciler.ChangedEntryAnnounced` | crypto_market_monitor.py:275-291 | a changed entry gets exactly one alert, with the stored and fresh values, and its committed record is the fresh value and date |
| `Reconciler.RerunDetectsNothing` | crypto_market_monitor.py:277-282 | idempotence: the same fresh values checked against the baseline just committed give no change |
| `History.CommittedValue` | crypto_market_monitor.py:275-297 | after a run, an indicator's stored value is the value the run reported for it, or the previous stored value if the fetch failed |
| `History.LastKnownGood` | crypto_market_monitor.py:275-302 | after any series of runs whose tables repeat no indicator (as `FetchTable` guarantees), each indicator's stored value is the most recent value any run reported, or the original one if none did |
| `History.CpiIncreaseExample` | crypto_market_monitor.py:277-297 | a stored CPI of 300.0 and a fresh 305.0 give one change, an increase, and the new value and date are stored |
| `History.CpiIncreaseAlert` | crypto_market_monitor.py:283-288 | the same run sends exactly one alert, carrying the stored and fresh values, the up label and the CPI increase text |
| `BaselineStore.InitialBaseline` | crypto_market_monitor.py:22-31 | the initial baseline has exactly the eight indicator keys, each `{value: None, date: None}` |
| `BaselineStore.Initialized` | crypto_market_monitor.py:18-35 | after start-up the file is neither missing nor empty; a parsed or unparsable file is untouched; a file that was missing or empty stores no value for any indicator |
| `BaselineStore.LoadedBaseline` | crypto_market_monitor.py:212-219 | a parsed file gives its contents; any other file gives a baseline that stores no value under any key |
| `BaselineStore.NothingStoredAllDecrease` | crypto_market_monitor.py:275-283 | with nothing stored (first run or unreadable file), every present fresh value is a change and every change is a decrease |
| `BaselineStore.FreshStartsStoreNothing` | crypto_market_monitor.py:210-221 | both the initial baseline and the fallback for an unreadable file store no value for any indicator |
| `BaselineStore.BaselineFile.Load` | crypto_market_monitor.py:210-221 | a parsed file gives its baseline; a missing, empty or unparsable file gives the empty baseline |
| `BaselineStore.BaselineFile.Write` | crypto_market_monitor.py:299-300 | the write replaces the whole file and counts one write |
| `BaselineStore.BaselineFile.Initialize` | crypto_market_monitor.py:18-33 | a missing or empty file gets the initial baseline (one write); any other file is untouched |
| `BaselineStore.CheckAndLogData` | crypto_market_monitor.py:209-302 | the alerts are those of the changes against the loaded baseline, in fetch order; the merged baseline is written exactly once iff there was a change, and the file is untouched otherwise |
| `BaselineStore.RunOnce` | crypto_market_monitor.py:35 | start-up (the module-level call at line 35), then the run of lines 304-305: the alerts are those of the changes against the initialised file's baseline; one write for initialising a missing or empty file, plus one iff the run found a change; the file ends as initialised if nothing changed, else holds the committed baseline |
| `BaselineStore.RerunIsQuiet` | crypto_market_monitor.py:276-302 | two runs with the same fetched values: the first sends the alerts of its changes, the second sends none; together they write once iff the first found a change, and the file ends as the first run left it |

## Left out

- HTTP fetchers (lines 71-207): network I/O. Their results are the `fetch` parameter,
  and a fetcher that returns `(None, None)` is the model's failed observation.
- Aborted runs: the fetchers catch nothing. A connection error, a body that is not
  JSON, a missing `data` or `value` key, or a value `float` cannot parse (FRED's `.`
  for a missing observation) raises while the table of lines 224-233 is built, and
  the run ends with no alert and no write. The model covers only runs in which every
  fetcher returned.
- Telegram sender (lines 54-68): network I/O. A sent alert is an element of the
  returned sequence. Delivery failures are swallowed by the source and never reach
  the loop.
- Logging and environment loading (lines 8-15, 38-46): plumbing with no effect on the
  outcome.
- Wall-clock time (lines 49-51, 285): the timestamp is computed but never used in the
  alert.
- Float rendering in the alert (line 287): a parameter. The model does not know
  Python's `repr` of floats.
- Floating point: values are exact reals. NaN, which is unequal to itself, is not
  modelled.
- Files that parse but that a `Baseline` (`map<string, Record>`) cannot represent: a
  top level that is not an object, an entry that is not an object, or a stored value
  that is not a number. The source raises on such an entry only when it looks it up
  for an indicator whose fetch returned a value (line 277) or compares it (line 283).
  Under any other key the entry is skipped, kept by the merge and written back. A file
  that is not valid UTF-8 raises in the source.
- Non-atomic writes (lines 299-300): `open(..., 'w')` truncates the file before
  `json.dump`, so a dump that fails leaves it empty or partial. `BaselineFile.Write`
  replaces the file in one step.
- Concurrent runs: the source assumes one run at a time, and so does the model.
