# Gacha prize store, draw and history — a Dafny model

This project models the bookkeeping and selection logic of a desktop "gacha"
(capsule-toy) simulator. The logic sits under a tkinter GUI. The model covers:

- the prize list store (`PrizeManager`): add, update, remove, get, weights,
  loading with per-field defaults, saving into the existing configuration
  document, and the integer weighted draw;
- the draw engine (`GachaEngine`): repeated draws, per-name counting of
  results, and the animation-frame list;
- the draw history (`History`): append-only records, statistics rebuilt from
  the records, clearing, loading and listing;
- configuration loading (`Config`): merging a loaded document with the
  defaults, and the example configuration path;
- the original entry point (`main.py`): the real-valued `choose_prize_index`
  and the frame list of `start_draw`.

Everything is pure functions over immutable datatypes. Random numbers and
clock readings are parameters. `r` and the uniform index of a draw, and the
`randrange` values of the filler frames, come with a `requires` that states
the range the random call guarantees. Timestamps are opaque strings. Reading
a file is an input `FileState` = `Absent | Unreadable | Parsed(value)`. A file
write is represented by the document that would be written.

Modules, one per source file plus three shared ones:

- `Common` (common.dfy): `Option`, the `Json` value type, `FileState`.
- `Weighted` (weighted.dfy): `Sum`, cumulative weights and the first-reaching
  search. The search is shared by `draw` and `choose_prize_index`.
- `Tally` (tally.dfy): per-name counting. It is shared by `get_statistics` and
  `_update_statistics`, and its result is related to the multiset of names.
- `PrizeManager`, `GachaEngine`, `History`, `Config`, `LegacyMain` (main.py).

Behaviour worth knowing:

- Saving the prizes writes the file in place; there is no atomic write.
- Loading can write. When the prize loader falls back to the defaults it saves
  them, so an unreadable configuration file is replaced by `{prizes: defaults}`
  and loses its other content (`PrizeManager.LoadWrite`). Loading the history
  overwrites an unreadable history file with the empty history
  (`History.LoadWrite`).
- Saving an empty list and loading it again does not give the empty list back.
  The loader replaces an empty list with the three defaults (`SaveEmptyThenLoad`).
- In `draw`, the fall-back to position 0 cannot fire once `1 <= r <= total`.
  The last cumulative weight is the total, so a position always qualifies
  (`DrawNeverFallsBack`). The drawn prize also always has positive weight
  (`DrawNeverPicksZeroWeight`). Neither fact needs non-negative weights.
- `choose_prize_index` in main.py can choose a zero-weight prize when `r = 0`
  (`ZeroWeightCanBeChosen`). The integer draw cannot.

## Model

| member | source | states |
|---|---|---|
| PrizeManager.GetPrize | gacha_app/src/core/prize_manager.py:92-96 | a prize comes back exactly when `0 <= index < len`, and it is the one at that position; otherwise none |
| PrizeManager.AddPrize | gacha_app/src/core/prize_manager.py:98-110 | accepted iff fewer than 100 prizes; a refusal leaves the list unchanged; an accepted add appends exactly the new prize and keeps all earlier ones |
| PrizeManager.AddKeepsCap | gacha_app/src/core/prize_manager.py:100-101 | a list within the cap of 100 stays within it after an add |
| PrizeManager.UpdatePrize | gacha_app/src/core/prize_manager.py:112-121 | succeeds iff the index is in range; the length is kept, only that position changes, and a failure changes nothing |
| PrizeManager.RemovePrize | gacha_app/src/core/prize_manager.py:123-128 | succeeds iff the index is in range; the list loses exactly that element, earlier ones keep their places, later ones shift down by one, the multiset loses exactly that prize; a failure changes nothing |
| PrizeManager.RemoveUndoesAdd | gacha_app/src/core/prize_manager.py:98-128 | removing the position just added restores the list before the add |
| PrizeManager.GetAfterRemove | gacha_app/src/core/prize_manager.py:92-128 | after removing `i`, reading `j` gives the old `j` below `i` and the old `j + 1` from `i` on |
| PrizeManager.GetAfterUpdate | gacha_app/src/core/prize_manager.py:92-121 | after an update, reading the updated position gives the new prize and every other read is unaffected |
| PrizeManager.GetWeights | gacha_app/src/core/prize_manager.py:161-163 | one weight per prize, in list order |
| PrizeManager.DefaultPrizes | gacha_app/src/core/prize_manager.py:39-57 | the default list has weights 10, 30 and 60 |
| PrizeManager.BucketIndex | gacha_app/src/core/prize_manager.py:145-152 | the smallest position whose cumulative weight is at least `r` when one exists, otherwise 0 |
| PrizeManager.Draw | gacha_app/src/core/prize_manager.py:130-159 | no result iff the list is empty; otherwise an in-range index, the prize at that index and the given timestamp; a non-positive total gives the supplied uniform index, a positive total gives the smallest position whose cumulative weight reaches `r` |
| PrizeManager.DrawNeverPicksZeroWeight | gacha_app/src/core/prize_manager.py:139-152 | with a positive total the drawn prize has positive weight |
| PrizeManager.DrawNeverFallsBack | gacha_app/src/core/prize_manager.py:145-152 | with `1 <= r <= total` some position always qualifies, so the fall-back index 0 is never used |
| PrizeManager.Load | gacha_app/src/core/prize_manager.py:13-37 | the loaded list is never empty; without a usable non-empty `prizes` list it is the defaults; otherwise one prize per entry, each field taken from the entry when present and defaulted to "未命名奖品", 1, "resources/images/prize1.png" when missing |
| PrizeManager.LoadedWeights | gacha_app/src/core/prize_manager.py:161-163 | the weights after loading are each entry's weight, or 1 where the entry has none |
| PrizeManager.LoadWrite | gacha_app/src/core/prize_manager.py:13-82 | loading writes exactly when it falls back to the defaults and the file is not a non-object document; the write keeps every other key of an object, is `{prizes: defaults}` for a missing or unreadable file, and loading it again gives the same defaults |
| PrizeManager.SaveDocument | gacha_app/src/core/prize_manager.py:60-82 | the written document is the existing object with only its `prizes` key replaced (all other keys and values kept), a fresh `{prizes}` object when no file could be read, and nothing when the existing document is not an object |
| PrizeManager.SaveThenLoad | gacha_app/src/core/prize_manager.py:13-82 | loading what was saved gives back the same non-empty list, field by field |
| PrizeManager.SaveEmptyThenLoad | gacha_app/src/core/prize_manager.py:31-33 | a saved empty list loads as the three defaults |
| Weighted.FirstReaching | gacha_app/src/core/prize_manager.py:146-152 | the result is the first position whose cumulative weight meets the threshold test; no result iff no position meets it |
| GachaEngine.TruncDiv | gacha_app/src/core/gacha_engine.py:47 | `int(a / b)`: `q * b` lies between 0 and `a`, and differs from `a` by less than `abs(b)` (truncation toward zero) |
| GachaEngine.FillerCount | gacha_app/src/core/gacha_engine.py:47-49 | for a non-zero interval: for non-negative duration and positive interval the filler count is `duration / interval`; when both are negative it is the quotient truncated toward zero (a multiple of the interval between 0 and the duration, less than one interval away from it); with opposite signs it is 0. The zero interval is the callers' error path |
| GachaEngine.GenerateAnimationFrames | gacha_app/src/core/gacha_engine.py:41-52 | no prizes gives no frames; a zero interval with prizes raises (`None`), and only then; otherwise filler-count + 1 frames, the last one the final index, every earlier one a valid prize position |
| GachaEngine.DefaultFrameCount | gacha_app/src/core/gacha_engine.py:41-51 | the defaults 1500/50 give 31 frames |
| GachaEngine.SimulateDraws | gacha_app/src/core/gacha_engine.py:13-18 | one result per supplied pick, in order, each the result of `draw`; all present and in range for a non-empty list, all absent for an empty one |
| GachaEngine.GetStatistics | gacha_app/src/core/gacha_engine.py:20-30 | the keys are exactly the names among the results; each count is the number of results with that name and at least 1; the counts add up to the number of results |
| Tally.Count | gacha_app/src/utils/history.py:77-86 | a name is a key iff it occurs; its counter equals its multiplicity and is at least 1 |
| Tally.CountSum | gacha_app/src/utils/history.py:79-86 | the counters add up to the number of names counted |
| History.Load | gacha_app/src/utils/history.py:13-23 | the stored document when it could be read, otherwise `{draws: [], statistics: {}}`; it never fails |
| History.GetAllRecords | gacha_app/src/utils/history.py:25-28 | the stored draws in stored order, or none when the key is missing |
| History.Statistics | gacha_app/src/utils/history.py:75-88 | the keys are exactly the names among the draws; each count is the number of draws with that name; the counts add up to the number of draws |
| History.LoadWrite | gacha_app/src/utils/history.py:13-73 | loading writes exactly when the file is missing or unreadable; it writes the empty history, and reading the written file gives what `load` returned |
| History.UpdateStatistics | gacha_app/src/utils/history.py:75-88 | the draws are untouched; the statistics are rebuilt from the draws alone: the keys are exactly the drawn names, each count is the number of draws with that name, the counts sum to the number of draws, and a missing draw list gives empty statistics |
| History.StatisticsFromDrawsOnly | gacha_app/src/utils/history.py:75-88 | documents with the same draws get the same rebuilt statistics whatever they held before, and rebuilding twice equals rebuilding once |
| History.BuildRecord | gacha_app/src/utils/history.py:46-54 | a record exists iff the result has a prize name and weight; it copies name, weight, timestamp and index, and the image, or `''` when it is missing |
| History.AddRecord | gacha_app/src/utils/history.py:41-58 | succeeds iff the record can be built and the loaded document has draws; the new record is appended after the unchanged earlier ones; the statistics are those of the new draw list |
| History.AddThenRead | gacha_app/src/utils/history.py:25-58 | when the prize has a name and weight and the stored document has a draw list, the append succeeds, and reading back gives the previous records followed by the new one |
| History.AppendsInOrder | gacha_app/src/utils/history.py:41-58 | appending K complete results one after another adds K records in append order after the existing ones; every append succeeds |
| History.Clear | gacha_app/src/utils/history.py:60-62 | reading after clearing gives no records and the empty default document |
| History.AddRecordShared | gacha_app/src/utils/history.py:41-73 | as written: with a readable file it is `AddRecord` and the shared list is untouched; while the shared default list is still empty it saves what `AddRecord` saves; after a missing or unreadable file the saved draws are the shared list's records followed by the new one, and the shared list gains the record too |
| History.ClearShared | gacha_app/src/utils/history.py:60-62 | as written: `clear` saves the shared default draw list with empty statistics |
| History.ClearKeepsFirstRecord | gacha_app/src/utils/history.py:60-73 | as written: one add on a fresh object with no file, then clear, leaves that record in the cleared history |
| Config.FillMissing | gacha_app/src/utils/config.py:62-65 | every given entry is kept, and every default key missing from it is added with its default value |
| Config.MergeSettings | gacha_app/src/utils/config.py:59-65 | an object gets the missing defaults added; a list or string is kept only when every default key is "in" it, and otherwise the merge raises; any other value raises |
| Config.Load | gacha_app/src/utils/config.py:21-74 | a missing, unreadable or non-object file, or settings the merge rejects, give the default config; otherwise the result has all original keys plus `prizes` and `settings`, passes every key other than `settings` through, fills a missing `prizes` or `settings` with the default, and merges an existing `settings` |
| Config.SettingsNeverOverwritten | gacha_app/src/utils/config.py:62-65 | loaded settings keep every key and value they had and gain exactly the missing defaults |
| Config.LoadWrite | gacha_app/src/utils/config.py:49-74 | loading writes exactly when the file is missing, and loading the written default configuration gives the same configuration |
| Config.LoadIdempotent | gacha_app/src/utils/config.py:53-67 | loading the result of a load gives the same configuration |
| Config.GetExampleConfigPath | gacha_app/src/utils/config.py:89-91 | the path ends in `example_config.json` |
| Config.ExamplePathIsSibling | gacha_app/src/utils/config.py:89-91 | for `dir/file` the example path is `dir/example_config.json` |
| Config.ExamplePathOfBareName | gacha_app/src/utils/config.py:89-91 | for a bare file name the example path is `example_config.json` |
| LegacyMain.ChoosePrizeIndex | gacha_app/main.py:28-36 | the first position where the weights before it plus its own weight reach `r`, or `len - 1` when none does |
| LegacyMain.ChoiceInRange | gacha_app/main.py:28-36 | for a non-empty list and `0 <= r <= total` the result is a valid position, and it is the first that reaches `r` |
| LegacyMain.ChoiceOnEmpty | gacha_app/main.py:36 | an empty weight list gives -1 |
| LegacyMain.ZeroWeightCanBeChosen | gacha_app/main.py:30-34 | with `r = 0` a leading zero-weight prize is chosen |
| LegacyMain.StartDrawFrames | gacha_app/main.py:76-78 | raises (`None`) exactly when `frame_interval_ms` is zero or a filler frame must be drawn from no images; otherwise filler-count + 1 frames, the last the final index, the others valid image positions |
| LegacyMain.DefaultStartDrawFrames | gacha_app/main.py:21-22 | the defaults 1500/100 give 16 frames |

## Left out

- File I/O (`json.load`, `json.dump`, `os.makedirs`, `os.path.exists`): reading is the `FileState` input, and writing is the document returned. The boolean a save returns on an I/O error is not modelled. The writes that loading itself makes are the `LoadWrite` members; main.py's `load_config` default write is not modelled.
- Randomness and clock: `random.randint`, `randrange`, `uniform` and `datetime.now` are parameters. Statistical convergence to `weight / total` is a probabilistic claim and is not stated.
- Float percentages in `get_statistics` and the UI: only counts are modelled.
- JSON floats: `Json` numbers are integers. Float weights, and float precision in `int(duration / interval)` for very large values, are not modelled.
- PrizeManager.Load: a prize field of the wrong JSON type (a non-string name, a non-integer weight) makes the model fall back to the defaults. Python would keep the value as loaded. Extra keys inside a prize entry are dropped. A `prizes` value that is an object whose every key contains "name", "weight" and "image" as substrings is treated as unusable, and so is a `prizes` list entry that is not an object but still passes the `in` tests: a string containing "name", "weight" and "image" as substrings, or a list holding those three strings. Python would keep such values.
- History: the history document is typed (`draws`, `statistics` as optional fields). A non-object JSON file and ill-typed records are not modelled. Extra top-level keys are not carried.
- GachaEngine.GetStatistics: requires every result to carry a prize name. Python raises on a missing name or on a `None` result from an empty list.
- Python aliasing: the main model uses value semantics. In Python, `draw` returns the live prize dict. The shallow copy of `default_history` is modelled only for the Finding below.
- `set_prizes`, `get_all_prizes`, `create_example_config`, `Config.save`, `History.save` and main.py's `load_config`: plain assignments, reads or I/O with no logic beyond what is already modelled.
- `os.path` on Windows: `Dirname` and `Join` follow the POSIX rules.
- The GUI (`src/ui/*`), its `animating` guard, its form validation and `play_frames`, as well as packaging and bootstrap code.

## Findings

| source | as written | input that shows it | evidently intended | confidence | as-written member | corrected member |
|---|---|---|---|---|---|---|
| gacha_app/src/utils/history.py:60-73 | `load` on a missing or unreadable file returns `default_history.copy()`. The copy is shallow, so `add_record` appends to the object's own default `draws` list, and `clear` later saves that list | on a fresh `History` with no file: one `add_record`, then `clear` | `clear` leaves `{draws: [], statistics: {}}` | high, not executed | History.ClearKeepsFirstRecord | History.Clear |
