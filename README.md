# Transaction loader: schema reconciliation and bulk insert with row fallback

A Dafny model of the ingestion core of `Controller/incrementacao_msql.py`, the script
that pulls financial transactions from an HTTP API and appends them to the MySQL table
`transactions`. The database is reduced to an abstract state (`Database.Db`): whether the
table exists, its columns with their SQL types, its primary key, the rows stored and,
as a ghost log, every statement it has been sent. The outcome of every insert the
database would report is supplied to the model as data.

- `Frames` — the data-frame shape: records as maps from column name to cell, projection
  onto a column set (`df[colunas_validas]`).
- `Schema` — the fixed fifteen-column definition of `transactions` (`_id` the primary
  key) and the `next(...)` lookup of a column's type.
- `Database` — the table state and the four statements the pipeline issues: create,
  add column, batched append, single-row append.
- `Reconciler` — `verificar_estrutura_tabela`: create the table when absent, otherwise
  one `ALTER TABLE ... ADD COLUMN` per defined column the table lacks, in set order.
  `Reconciled` is the resulting structure; the method is proved to produce it.
- `Loader` — `inserir_dados`: intersect the frame's columns with the table's, try one
  batch, and on failure insert row by row, classifying each row as success, duplicate
  (only an `IntegrityError` whose driver message contains `Duplicate entry`) or error.
  `Tally` is the statistics dictionary the loop builds; `Load` is the whole routine.
- `Pipeline` — `obter_dados_api` (the date-column loop) and `main`: the phases in order,
  exit status 1 when an exception escapes.

Behaviour the model makes explicit:

- When the frame and the table share no column, or the table is missing, the exception
  raised inside the `try` (the `ValueError` of line 121, or the inspector's) is caught by
  the batch handler at line 141, whose loop at line 151 then reads `df_filtrado`, never
  assigned; that reference error is what leaves `inserir_dados`. The model returns
  `FilteredFrameUnbound(cause)` and sends no insert at all.
- An answer from the API without one of the four date columns, in particular an empty
  list, makes `df[coluna]` at line 34 raise `KeyError`, so the run exits with status 1
  (`Pipeline.EmptyResponseExitsWithError`). An empty answer might be expected to load
  nothing and exit 0; the code exits 1.
- Because the date columns are defined columns, once the dates are normalised and the
  table reconciled the load can no longer fail for want of columns
  (`Pipeline.ReconciledLoadNeverRaises`). In the model, which has no database errors
  (see "Left out"), the exit status therefore depends only on the fetch, the date columns
  and the connection; in the program an error raised by the database while the table is
  inspected, created or altered (lines 91-107) or inspected again (line 116) also ends
  the run with status 1, possibly after the table has already changed.
- On an existing table the reconciler never touches the primary key: an `_id` column it
  has to add arrives as a plain column, not as a key (`Reconciler.ExtendsExistingTable`).

## Model

| member | source | states |
|---|---|---|
| `Schema.Definition` | Controller/incrementacao_msql.py:73-89 | the fifteen columns of `tabela_transacoes` in declaration order, each with its declared type, `_id` the only one marked primary key |
| `Schema.DefinedNames` | Controller/incrementacao_msql.py:99 | `colunas_definidas`: the names of the defined columns |
| `Schema.Lookup` | Controller/incrementacao_msql.py:104 | finds a definition exactly when one carries the name, and the one found carries that name |
| `Schema.TypeIn` | Controller/incrementacao_msql.py:104-105 | the type of the definition `next(...)` finds for a defined name |
| `Schema.ColumnsOf` | Controller/incrementacao_msql.py:95 | the columns `create_all` makes: every defined name with its type |
| `Schema.LookupFindsFirst` | Controller/incrementacao_msql.py:104 | the generator yields the earliest definition with the name |
| `Schema.DefinitionDistinct` | Controller/incrementacao_msql.py:73-89 | no two of the fifteen definitions share a name |
| `Schema.NamesCount` | Controller/incrementacao_msql.py:99 | a definition list with distinct names has as many names as entries |
| `Schema.DefinedNamesCount` | Controller/incrementacao_msql.py:73-89 | the defined column set has exactly fifteen names |
| `Schema.PrimaryKeyIsId` | Controller/incrementacao_msql.py:88 | `_id` is defined and is the only primary-key column |
| `Schema.DefinedColumnTypes` | Controller/incrementacao_msql.py:104-105 | the type looked up for each defined column is the type it is declared with |
| `Frames.ColumnSet` | Controller/incrementacao_msql.py:117 | `set(df.columns)`: the frame's column labels |
| `Frames.Project` | Controller/incrementacao_msql.py:123 | one record of `df[colunas_validas]`: exactly the chosen columns, each with the record's own cell (missing when the record lacks it) |
| `Frames.ProjectAll` | Controller/incrementacao_msql.py:123 | `df[colunas_validas]`: the records in order, each projected onto the chosen columns |
| `Database.Db.CreateTable` | Controller/incrementacao_msql.py:95 | the new table has exactly the definition's columns and keys; stored rows unchanged |
| `Database.Db.AddColumn` | Controller/incrementacao_msql.py:107 | adds exactly one new column with the given type; keys and rows unchanged |
| `Database.Db.InsertRows` | Controller/incrementacao_msql.py:129-136 | a committed batch appends all its rows; the structure is unchanged |
| `Database.Db.InsertOne` | Controller/incrementacao_msql.py:153-158 | a row is stored only when its insert succeeded; one statement is sent per call |
| `Reconciler.MissingColumns` | Controller/incrementacao_msql.py:98-103 | `colunas_definidas - colunas_existentes`: the defined names the table does not have |
| `Reconciler.Extend` | Controller/incrementacao_msql.py:103-107 | the table's columns after ALTERs for the names `added`: old columns with their old types, each added one with its defined type |
| `Reconciler.Reconciled` | Controller/incrementacao_msql.py:93-107 | the structure after one reconciliation: the definition's columns and keys for an absent table, otherwise the old columns extended by the missing ones with the key kept |
| `Reconciler.Alters` | Controller/incrementacao_msql.py:103-107 | the ALTER statements adding the listed columns in that order, each with its defined type |
| `Reconciler.AddMissingColumns` | Controller/incrementacao_msql.py:97-107 | the ALTERs sent list every column of `defined - existing` once and nothing else, each with its defined type, and the new structure is `Reconciled` |
| `Reconciler.VerifyTableStructure` | Controller/incrementacao_msql.py:70-109 | creates the table from the definition when absent, otherwise sends one ALTER per missing column; rows untouched; returns the definition |
| `Reconciler.DistinctListing` | Controller/incrementacao_msql.py:103-107 | the number of ALTERs equals the number of missing columns |
| `Reconciler.CreatesDefinedTable` | Controller/incrementacao_msql.py:73-95 | a created table has exactly the fifteen defined columns with their declared types and `_id` as its only key |
| `Reconciler.ExtendsExistingTable` | Controller/incrementacao_msql.py:98-107 | an existing table ends with `existing + defined` columns, no column dropped or retyped, each added one with its defined type, key unchanged |
| `Reconciler.Idempotent` | Controller/incrementacao_msql.py:99-103 | after one run nothing is missing, and a second run leaves the structure unchanged |
| `Reconciler.CoversDefinition` | Controller/incrementacao_msql.py:93-107 | after reconciliation every defined column exists |
| `Loader.Contains` | Controller/incrementacao_msql.py:162 | Python's substring test `'Duplicate entry' in str(e.orig)` |
| `Loader.Classify` | Controller/incrementacao_msql.py:152-169 | how one row insert counts: success, duplicate for an `IntegrityError` whose driver message holds the marker, error for anything else |
| `Loader.NoStatistics` | Controller/incrementacao_msql.py:144-149 | the `estatisticas` dictionary as initialised: all counters zero, no example |
| `Loader.Record` | Controller/incrementacao_msql.py:159-169 | the statistics after one more row: one counter bumped, and the message appended for an error |
| `Loader.Tally` | Controller/incrementacao_msql.py:144-169 | the statistics dictionary after the fallback loop has seen the outcomes in row order, starting from all zeros |
| `Loader.Committed` | Controller/incrementacao_msql.py:151-159 | the rows the fallback loop stores: those whose insert succeeded, in order |
| `Loader.UsableColumns` | Controller/incrementacao_msql.py:116-118 | `colunas_df & colunas_tabela` |
| `Loader.Load` | Controller/incrementacao_msql.py:112-177 | the outcome, stored rows and statements of `inserir_dados`: unbound filtered frame for a missing table or no shared column, the batch when it commits, otherwise the row-by-row fallback |
| `Loader.ErrorExamples` | Controller/incrementacao_msql.py:176-177 | the warning: the first three examples, shown only when some row was an error |
| `Loader.ContainsIff` | Controller/incrementacao_msql.py:162 | the substring test holds iff the pattern occurs at some position |
| `Loader.DuplicateIff` | Controller/incrementacao_msql.py:161-169 | a row is a duplicate iff it raised an `IntegrityError` whose driver message contains `Duplicate entry`; every other failure is an error |
| `Loader.TallyTotal` | Controller/incrementacao_msql.py:151-169 | `sucesso + duplicados + erros` equals the number of rows, and there is one example message per error |
| `Loader.TallyCountsKinds` | Controller/incrementacao_msql.py:159-169 | each counter is the number of rows classified as its kind |
| `Loader.FailureMessagesAppend` | Controller/incrementacao_msql.py:166-169 | the error messages of two row runs are those of the first followed by those of the second |
| `Loader.TallyExamples` | Controller/incrementacao_msql.py:165-169 | the example list is the error rows' messages in row order |
| `Loader.WarningShowsFirstErrors` | Controller/incrementacao_msql.py:176-177 | the warning appears iff some row was an error, and shows the first `min(3, erros)` error messages |
| `Loader.CommittedRows` | Controller/incrementacao_msql.py:151-159 | the fallback stores one row per success, each one of the filtered rows |
| `Loader.LoadRaisesIff` | Controller/incrementacao_msql.py:113-151 | the load raises iff the table is missing or shares no column with the frame, and then nothing is sent or stored |
| `Loader.BatchStoresAllRows` | Controller/incrementacao_msql.py:123-139 | a committed batch stores every row projected onto the shared columns and reports `len(df)` |
| `Loader.FallbackAccountsForEveryRow` | Controller/incrementacao_msql.py:141-169 | after a failed batch every filtered row is attempted once, in order; counters sum to the row count, examples to errors, stored rows to successes |
| `Loader.StoredRowsAreProjected` | Controller/incrementacao_msql.py:116-123 | every stored row is a frame row projected onto exactly `frame columns ∩ table columns` |
| `Loader.DuplicateOutcomeTally` | Controller/incrementacao_msql.py:159-165 | a success followed by an `IntegrityError` whose `orig` holds `Duplicate entry` tallies to 1 success, 1 duplicate, 0 errors and no example |
| `Loader.DuplicateIdScenario` | Controller/incrementacao_msql.py:112-169 | a load of two records sharing `_id` into a table keyed on `_id`, whose batch fails and whose second single insert is rejected with the duplicate-entry message: reports 1, 1, 0, sends the batch and two single-row inserts, stores only the first record |
| `Loader.InsertRowByRow` | Controller/incrementacao_msql.py:144-169 | the loop's statistics are `Tally` of the outcomes; it stores `Committed` rows and sends one insert per row |
| `Loader.InsertData` | Controller/incrementacao_msql.py:112-177 | the outcome, stored rows and statements are those of `Load`; the structure is unchanged |
| `Pipeline.DateColumns` | Controller/incrementacao_msql.py:32 | `colunas_data`: the four date columns in list order |
| `Pipeline.NormaliseDates` | Controller/incrementacao_msql.py:32-34 | fails with the first absent date column, otherwise rewrites every date column of every record and nothing else |
| `Pipeline.NormaliseRow` | Controller/incrementacao_msql.py:33-34 | one record after the date loop: each date column rewritten by the parser, every other cell kept |
| `Pipeline.NormalisedFrame` | Controller/incrementacao_msql.py:33-34 | the frame after the date loop: same columns and record count, every record normalised |
| `Pipeline.FetchApiData` | Controller/incrementacao_msql.py:20-40 | an API failure or an absent date column propagates; otherwise the frame with its dates normalised |
| `Pipeline.DateColumnsDefined` | Controller/incrementacao_msql.py:32 | the four date columns are defined columns of the table |
| `Pipeline.ReconciledLoadNeverRaises` | Controller/incrementacao_msql.py:116-121 | after normalisation and reconciliation the frame always shares a column with the table |
| `Pipeline.Run` | Controller/incrementacao_msql.py:180-198 | in the model without database errors: status 0 iff the fetch succeeded, the date columns were present and the connection worked; on status 1 the database is untouched; on 0 it is reconciled, holds the loaded rows, and every stored row carries only table columns |
| `Pipeline.EmptyResponseExitsWithError` | Controller/incrementacao_msql.py:27-34 | an empty API answer ends the run with status 1 and no database change |

## Left out

- The API call (`chamar_api_myfinance`): `Model/def_url` is not part of this model; its answer, already turned into a frame, or the message of the exception it raised, is a parameter. The `token`/`headers` built at lines 23-24 are never used by the code and are not modelled.
- Date parsing (`pd.to_datetime(..., errors='coerce').dt.strftime`): library behaviour; it is a parameter `normalise` taken to act cell by cell on each date cell. Depending on the pandas version, `pd.to_datetime` may infer one format from the whole column, so that one cell's result depends on the others; that is not modelled.
- Engine creation, environment variables, the connection test and pool settings (lines 43-67): I/O; the connection test is a boolean parameter.
- SQL type compilation for the dialect (line 105): an ALTER carries the column's `ColumnType`, not the compiled text.
- Database.Db.InsertOne: the database's own checks (primary-key uniqueness, column types) are not modelled; each insert's outcome is supplied, so the model does not derive that a repeated `_id` is rejected, and `Loader.DuplicateIdScenario` states the outcomes MySQL gives.
- Database.Db.InsertRows: a failed batch is taken to store no row; whether `to_sql` committed earlier chunks of 1000 before failing is library behaviour and not modelled (the per-row outcomes supplied to the fallback may still report those rows as duplicates).
- Database errors while inspecting, creating or altering the table (lines 91-107) and while inspecting it again in the loader (line 116): the model's reconciler always succeeds, so the reconcile phase of `Pipeline.Run` never fails; in the loader only a missing table stands for a failing inspection. This abstraction is why `Pipeline.Run` can promise that status 1 leaves the database unchanged (`unchanged(db)`): in the program such an error also exits 1, possibly after `create_all` (line 95) or some ALTERs (line 107) have already changed the table.
- Column order: `list(colunas_df & colunas_tabela)` has an arbitrary order; the model keeps the shared columns as a set and records as maps.
- Cell values are abstract (`Value`); pandas dtypes, NaN and NaT are a single missing marker.
- Logging and timing (`datetime.now()`, the summary lines): observational only, except the error-example selection of lines 176-177, which is modelled.
- Exceptions outside `Exception` (such as `KeyboardInterrupt`) are not modelled.
- `View/Ftransion.py` (spreadsheet export): pure I/O, no logic.
- Concurrent runs: the code has no concurrency control to model.
