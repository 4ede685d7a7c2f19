# Eastmoney stock meta recorder, modelled in Dafny

This project models `ChinaStockMetaRecorder` from zvt, which fills in the
descriptive columns of `StockDetail` rows.

- **Selection.** At construction the recorder selects the rows of exchange
  `sh` or `sz` that have no `profile` yet. When `codes` are given, only rows
  whose code is among them are selected.
- **The run.** `run()` walks those rows in order. For each row it:
  1. derives the provider key `fc` (the code followed by `01` for Shanghai,
     `02` for Shenzhen);
  2. reads the basic-information reply and assigns six columns, turning the
     hyphen-separated industry path into a comma-separated one;
  3. reads the issuance reply and assigns five columns through the number
     parsers;
  4. commits the session.

The model keeps the source's form:

- The row is a class, `StockDetails.StockDetail`, with one field per column.
  `Snapshot()` gives its value as a `Record`.
- The recorder is a class, `ChinaStockMeta.ChinaStockMetaRecorder`. It holds
  the working set `entities` and a ghost log `commits`, which records the row
  written by each `session.commit()`.
- `Run` is a `while` loop over the working set. Each turn is the method
  `Step`, which updates the key, assigns the row in place and commits.
- What the loop does is specified on values. `Enrich` is one row's turn:
  1. the key;
  2. `BasicInfoApplied`, the six assignments in source order;
  3. `IssuanceApplied`, the five assignments.

  `EnrichAll` is the whole loop. It is an instance of the generic driver
  `RunRows`, which runs a turn on each row until the first one that raises.
- A missing name in a reply (a `KeyError` in the source) is an explicit
  outcome. The assignments made before it stay on the row. The row is not
  committed, and the loop ends there: the source has no handler around the
  loop body.

The model proves that a stale or unbound `fc` cannot occur.

- In the source, `fc` is only assigned under the `sh` and `sz` tests. A row on
  any other exchange would reuse the previous row's key, or fail on the first
  row.
- `KeyStep` models that update literally, including the reuse.
- The constructor establishes `Valid()`: every selected row is on `sh` or
  `sz`.
- `Step` then guarantees that the key each request uses is exactly the
  current row's own `ProviderKey`.

Files:
- `wrappers.dfy`: `Option`.
- `stock_detail.dfy`: the row class and its value type.
- `strings.dfy`: Python's `str.split` and `str.join` on one separator
  character.
- `china_stock_meta_recorder.dfy`: the recorder.

## Model

| member | source | states |
|---|---|---|
| ChinaStockMeta.ProviderKey | zvt/recorders/eastmoney/meta/china_stock_meta_recorder.py:42-45 | the key `fc` of a row on `sh` or `sz`; it has no contract of its own, and `ProviderKeyParts` and `ProviderKeyInjective` state what it is |
| ChinaStockMeta.ProviderKeyParts | zvt/recorders/eastmoney/meta/china_stock_meta_recorder.py:42-45 | the key is the code followed by two characters, which are `01` exactly when the exchange is `sh` and `02` exactly when it is `sz` |
| ChinaStockMeta.ProviderKeyInjective | zvt/recorders/eastmoney/meta/china_stock_meta_recorder.py:42-45 | two rows of `sh`/`sz` with the same key have the same code and exchange, so no row is ever sent another row's key |
| ChinaStockMeta.KeyStep | zvt/recorders/eastmoney/meta/china_stock_meta_recorder.py:42-45 | after the two `if` statements, `fc` is the row's own key when the row is on `sh` or `sz`; on any other exchange it keeps its previous value, stale or unbound |
| ChinaStockMeta.ProviderKeyExamples | zvt/recorders/eastmoney/meta/china_stock_meta_recorder.py:42-45 | `600000` on `sh` gives `60000001` and `000001` on `sz` gives `00000102`; a row on `hk` keeps the previous key, or leaves it unbound |
| Strings.Split | zvt/recorders/eastmoney/meta/china_stock_meta_recorder.py:59 | `split` gives one more part than there are separators, and no part contains the separator |
| Strings.Join | zvt/recorders/eastmoney/meta/china_stock_meta_recorder.py:59 | `str.join` with one separator character; it has no contract of its own, and `JoinSplit` and `SplitJoinRoundTrip` state what it does with the parts of a split |
| Strings.JoinSplit | zvt/recorders/eastmoney/meta/china_stock_meta_recorder.py:59 | joining the parts of a split with another character equals replacing each separator by that character |
| Strings.SplitJoinRoundTrip | zvt/recorders/eastmoney/meta/china_stock_meta_recorder.py:59 | joining the parts of a split with the same separator gives back the original string |
| ChinaStockMeta.IndustryPath | zvt/recorders/eastmoney/meta/china_stock_meta_recorder.py:59-60 | the `industries` value has the industry path's length, has `,` exactly where the path has `-` and its characters elsewhere, and contains no `-` |
| ChinaStockMeta.Wanted | zvt/recorders/eastmoney/meta/china_stock_meta_recorder.py:32-34 | the filter on one row: exchange `sh` or `sz`, code among `codes` when given, no profile; `Select` states that the working set is exactly the rows that pass it |
| ChinaStockMeta.Select | zvt/recorders/eastmoney/meta/china_stock_meta_recorder.py:29-36 | the working set holds exactly the table's rows on `sh` or `sz`, with a code in `codes` when given, and without a profile; it has no duplicates when the table has none |
| ChinaStockMeta.ChinaStockMetaRecorder.constructor | zvt/recorders/eastmoney/meta/china_stock_meta_recorder.py:28-36 | stores `codes`, selects the working set, starts an empty commit log, and establishes that every selected row is on `sh` or `sz` and has no profile |
| ChinaStockMeta.BasicInfoApplied | zvt/recorders/eastmoney/meta/china_stock_meta_recorder.py:52-66 | reads `Result`, then `JiBenZiLiao`, then the six assignments; it has no contract of its own, and `BasicInfoAppliedSpec` states what it does |
| ChinaStockMeta.BasicInfoFilled | zvt/recorders/eastmoney/meta/china_stock_meta_recorder.py:54-66 | the six assignments from the section; it has no contract of its own, and `BasicInfoFilledSpec` states what it does |
| ChinaStockMeta.BasicInfoFilledSpec | zvt/recorders/eastmoney/meta/china_stock_meta_recorder.py:54-66 | each of the six columns is assigned exactly when its own name and every name before it in source order are present, and the others keep their values; the `KeyError`, if any, names the first absent name |
| ChinaStockMeta.BasicInfoAppliedSpec | zvt/recorders/eastmoney/meta/china_stock_meta_recorder.py:52-66 | the basic-information assignments complete exactly when `Result`, `JiBenZiLiao` and all six names are present, and then the six columns hold the reply (date parsed, industry path rewritten); otherwise the `KeyError` names `Result` when it is absent, else `JiBenZiLiao` when that is absent (and nothing changes), else the first absent field, with the columns before it assigned and the later ones kept |
| ChinaStockMeta.IssuanceApplied | zvt/recorders/eastmoney/meta/china_stock_meta_recorder.py:75-81 | reads `Result`, then `FaXingXiangGuan`, then the five assignments; it has no contract of its own, and `IssuanceAppliedSpec` states what it does |
| ChinaStockMeta.IssuanceFilled | zvt/recorders/eastmoney/meta/china_stock_meta_recorder.py:77-81 | the five assignments from the section; it has no contract of its own, and `IssuanceFilledSpec` states what it does |
| ChinaStockMeta.IssuanceFilledSpec | zvt/recorders/eastmoney/meta/china_stock_meta_recorder.py:77-81 | each of the five columns is assigned, through its parser, exactly when its own name and every name before it in source order are present, and the others keep their values; the `KeyError`, if any, names the first absent name |
| ChinaStockMeta.IssuanceAppliedSpec | zvt/recorders/eastmoney/meta/china_stock_meta_recorder.py:75-81 | the issuance assignments complete exactly when `Result`, `FaXingXiangGuan` and all five names are present, and then the five columns hold the parsed numbers (`LotRateOn` through the percentage parser); otherwise the `KeyError` names `Result`, else `FaXingXiangGuan` (and nothing changes), else the first absent field, with the columns before it assigned and the later ones kept |
| ChinaStockMeta.Enrich | zvt/recorders/eastmoney/meta/china_stock_meta_recorder.py:39-83 | one row's turn never changes its code or exchange |
| ChinaStockMeta.EnrichFields | zvt/recorders/eastmoney/meta/china_stock_meta_recorder.py:42-83 | with the row's own key: the row reaches the commit exactly when both replies are complete; a complete first reply fills the six columns; a committed row also holds the five issuance columns; an incomplete first reply stops the row before any issuance column changes; a stopped row holds the columns assigned before the first absent name of the reply that raised, and that name is the `KeyError` |
| ChinaStockMeta.RecordBasicInfo | zvt/recorders/eastmoney/meta/china_stock_meta_recorder.py:52-66 | the in-place assignments leave the row equal to its old value with the basic-information columns as `BasicInfoApplied` gives them, and report the same missing name |
| ChinaStockMeta.FillBasicInfo | zvt/recorders/eastmoney/meta/china_stock_meta_recorder.py:54-66 | the six in-place assignments, stopping at the first absent name, leave the row as `BasicInfoFilled` gives it |
| ChinaStockMeta.RecordIssuance | zvt/recorders/eastmoney/meta/china_stock_meta_recorder.py:75-81 | the in-place assignments leave the row equal to its old value with the issuance columns as `IssuanceApplied` gives them, and report the same missing name |
| ChinaStockMeta.FillIssuance | zvt/recorders/eastmoney/meta/china_stock_meta_recorder.py:77-81 | the five in-place assignments, stopping at the first absent name, leave the row as `IssuanceFilled` gives it |
| ChinaStockMeta.RecordStock | zvt/recorders/eastmoney/meta/china_stock_meta_recorder.py:47-81 | given the row's key, both requests and all assignments take the row to what `Enrich` prescribes: committed when nothing is missing, stopped with the missing name otherwise |
| ChinaStockMeta.ChinaStockMetaRecorder.RecordRow | zvt/recorders/eastmoney/meta/china_stock_meta_recorder.py:47-81 | working on row `i` changes that row as `Enrich` prescribes and leaves every other row of the working set unchanged |
| ChinaStockMeta.ChinaStockMetaRecorder.Step | zvt/recorders/eastmoney/meta/china_stock_meta_recorder.py:39-87 | one turn uses the current row's own key; a complete turn commits exactly that row and extends the loop's progress invariant; a turn that raises commits nothing and leaves the rows as the value-level run stopping at that row |
| ChinaStockMeta.ChinaStockMetaRecorder.Run | zvt/recorders/eastmoney/meta/china_stock_meta_recorder.py:38-87 | after `run`, the rows hold exactly what `EnrichAll` computes from their values before the run, the outcome is the same, and the commit log has grown by exactly the committed rows, in order |
| ChinaStockMeta.RunRows | zvt/recorders/eastmoney/meta/china_stock_meta_recorder.py:39-87 | the loop yields one value per row, and a stop is at an existing row |
| ChinaStockMeta.RunRowsCompletes | zvt/recorders/eastmoney/meta/china_stock_meta_recorder.py:39-87 | when every row's turn commits, the loop completes with those committed values |
| ChinaStockMeta.RunRowsStopsAt | zvt/recorders/eastmoney/meta/china_stock_meta_recorder.py:39-87 | when the rows before `i` commit and row `i` raises, the loop stops at `i` with the committed rows, row `i` as left, and the later rows untouched |
| ChinaStockMeta.RunRowsStopsAtRows | zvt/recorders/eastmoney/meta/china_stock_meta_recorder.py:39-87 | the same stop, for a result described row by row |
| ChinaStockMeta.RunRowsIdentity | zvt/recorders/eastmoney/meta/china_stock_meta_recorder.py:39-87 | the loop keeps every row's code and exchange when each turn does |
| ChinaStockMeta.RunRowsPrefix | zvt/recorders/eastmoney/meta/china_stock_meta_recorder.py:39-87 | every row before the stopping point was committed by its own turn |
| ChinaStockMeta.RunRowsStop | zvt/recorders/eastmoney/meta/china_stock_meta_recorder.py:39-87 | the row the loop stopped on holds what its turn left before the `KeyError`, and every later row is untouched |
| ChinaStockMeta.Turn | zvt/recorders/eastmoney/meta/china_stock_meta_recorder.py:39-83 | one iteration of the loop body, on a row on `sh` or `sz`; it has no contract of its own beyond `Enrich`'s |
| ChinaStockMeta.EnrichAll | zvt/recorders/eastmoney/meta/china_stock_meta_recorder.py:39-87 | the whole loop on the rows' values; it has no contract of its own, and `EnrichAllCompletes`, `EnrichAllStopsAt` and `EnrichAllIdentity` state what it yields |
| ChinaStockMeta.EnrichAllCompletes | zvt/recorders/eastmoney/meta/china_stock_meta_recorder.py:39-87 | a run in which every row is committed by its own turn completes with the committed values |
| ChinaStockMeta.EnrichAllStopsAt | zvt/recorders/eastmoney/meta/china_stock_meta_recorder.py:39-87 | a run whose row `i` raises ends with the committed rows before `i`, row `i` as its turn left it, and the rows after it untouched |
| ChinaStockMeta.EnrichAllIdentity | zvt/recorders/eastmoney/meta/china_stock_meta_recorder.py:39-87 | no row changes its code or exchange during a run |
| ChinaStockMeta.CompletedRunFillsProfiles | zvt/recorders/eastmoney/meta/china_stock_meta_recorder.py:34-54 | after a completed run every row has a profile, so the `profile is None` filter of the next selection skips them all |

## Left out

- The HTTP requests (lines 48-50 and 71-73) become `Provider`: one function per endpoint, from the key `fc` to the decoded reply. A failing request, a reply that is not JSON, and replies that differ for the same key are not modelled. The request parameters other than `fc` are dropped: `color` is always `w`, and `SecurityCode` is the constant `SZ300059`, sent for every stock (line 48). The per-key `Provider` function absorbs both.
- A decoded reply is a map from the names the recorder reads (`Key`) to strings. Names the recorder never reads are not represented. Leaves that are not strings (JSON `null`, numbers) are not modelled, so neither is an `Industry` value without `split`. A `Result` or section that is `null` or not an object, on which the lookup raises a `TypeError` and stops the run, is not modelled either.
- `to_float`, `pct_to_float` and `to_pd_timestamp` (`zvdata.utils`) are not part of this model. They are modelled as total functions in `Parsers` that may yield `None`. An exception raised by a parser is not modelled: an unreadable `FoundDate` that made `to_pd_timestamp` raise (line 56) would stop the run with `profile` and `main_business` already assigned. A timestamp is an integer.
- `get_entities` (`zvt.api.quote`) is not part of this model. It is modelled as a filter over a table of row objects, in table order. When `codes` is given as an empty list, the model selects no row; `get_entities` may treat an empty list differently.
- The `exchange` column is a datatype with `Sh`, `Sz` and `Other(name)`, since the recorder only compares it with `sh` and `sz`. `Other` holds only names other than `sh` and `sz`, so each value has one encoding.
- `EastmoneyChinaStockListRecorder().run()` (line 26) and the `Recorder` base class (line 23) are not part of this model.
- The `force_update=True` path is left out. It leaves `entities` unset in this file, so its behaviour is not visible here.
- The `isinstance` assertion (line 40) is left out, since every selected row is a `StockDetail`.
- `self.sleep()`, the logger and the `__main__` block (lines 68, 85, 87, 92-96) are left out. They do not affect the rows or the commits.
- `session.commit()` becomes an append to the ghost log `commits`. Everything else the session does (flushing other dirty objects, a failing commit) is not modelled.
- The loop ends at the first missing name, because the source has no exception handler. A design that skips the row and goes on to the next one would be different behaviour, and the model follows the code.
