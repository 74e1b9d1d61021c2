# CSV futures contract prices, modelled in Dafny

The repository stores the price history of each futures contract in its own
CSV file. The file name, without `.csv`, is the contract's key:
`instrument + "_" + date_str`. When the store is listed, each key is split on
`_` to get the contract back. Because two underscore-joined parts cannot be
told apart, the split uses the token count: four tokens mean a
three-part instrument code, three tokens a two-part code, two tokens a plain
code. When a file is read, rows with the same timestamp are collapsed to the
last one, in ascending timestamp order. Writing a file replaces it. Deleting
is refused.

The model has four modules:

- `Results` (`results.dfy`): `Option`, `Result` and `Outcome`. They stand in
  for Python's `None` and for the exceptions the source raises.
- `KeyNames` (`key_names.dfy`): Python's `str.split("_")` and `"_".join`, key
  encoding and decoding, and decoding a whole listing. Lemmas cover the
  round trip, the token-count rules, losslessness and rejection.
- `PriceTables` (`price_tables.dfy`): the `groupby(level=0).last()` collapse of
  a table of `(timestamp, row)` lines. It is proved to agree with two reference
  definitions: a last-wins map fold (`LastWins`) and the index of the last
  occurrence (`IsLastAt`).
- `CsvFuturesContractPrices` (`csv_futures_contract_prices.dfy`): the read
  configuration and its defaults, and the directory of files as a class
  (`CsvDirectory`: a map from key to table, plus the listing order). It also
  holds the repository class, whose data path, configuration and directory
  are set once in its constructor.

Two repositories built on the same `CsvDirectory` object share their files, as
two Python objects on the same data path do. The file system itself
(`pd_readcsv`, `to_csv`, `files_with_extension_in_pathname`) is replaced by
this directory object.

Two points of the source's behaviour, and how the model renders them:

- For a key with a bad token count, the code logs an error. It then fails in
  the two-value tuple unpack at line 104. The model returns
  `Err(MalformedKey(key))` for that case.
- The enumeration is a list comprehension, so one malformed key aborts the
  whole enumeration. `DecodeAll` returns the first error rather than skipping
  the key.

## Model

| member | source | states |
|---|---|---|
| `KeyNames.Split` | sysdata/csv/csv_futures_contract_prices.py:81 | `str.split("_")` always yields at least one token |
| `KeyNames.SplitLength` | sysdata/csv/csv_futures_contract_prices.py:81 | a key with n underscores splits into n + 1 tokens |
| `KeyNames.SplitTokens` | sysdata/csv/csv_futures_contract_prices.py:81 | no token of a split holds an underscore |
| `KeyNames.JoinSplit` | sysdata/csv/csv_futures_contract_prices.py:81-95 | re-joining the tokens with `_` gives the key back, which is what the 3- and 4-token re-joins rely on |
| `KeyNames.SplitConcat` | sysdata/csv/csv_futures_contract_prices.py:66-70 | splitting `a + "_" + b` gives the tokens of `a` followed by those of `b` |
| `KeyNames.Encode` | sysdata/csv/csv_futures_contract_prices.py:66-70 | the key is the instrument code, one underscore, then the date, with nothing escaped |
| `KeyNames.SplitEncode` | sysdata/csv/csv_futures_contract_prices.py:66-70 | the tokens of a key are the instrument's tokens followed by the date's tokens |
| `KeyNames.Decode` | sysdata/csv/csv_futures_contract_prices.py:81-106 | decoding fails exactly when the token count is not 2, 3 or 4, and the error names the key |
| `KeyNames.DecodeByTokenCount` | sysdata/csv/csv_futures_contract_prices.py:83-95 | 4 tokens give (t0_t1_t2, t3) with the 3-token rule not firing again; 3 tokens give (t0_t1, t2); 2 tokens give (t0, t1) |
| `KeyNames.DecodeRejects` | sysdata/csv/csv_futures_contract_prices.py:97-104 | a key is rejected exactly when it has no underscore or more than three |
| `KeyNames.DecodedParts` | sysdata/csv/csv_futures_contract_prices.py:83-106 | for every accepted arity, the decoded date is the last token and the decoded instrument is the other tokens re-joined with `_` |
| `KeyNames.DecodeLosesNothing` | sysdata/csv/csv_futures_contract_prices.py:81-106 | an accepted key is the encoding of its decoded contract; that date has no underscore and that instrument has at most two |
| `KeyNames.RoundTrip` | sysdata/csv/csv_futures_contract_prices.py:81-106 | an instrument with 0, 1 or 2 underscores and a date with none decode back from their key |
| `KeyNames.DecodeExactly` | sysdata/csv/csv_futures_contract_prices.py:81-106 | decoding a key gives contract c if and only if c encodes to the key, its date has no underscore and its instrument has at most two |
| `KeyNames.EncodeInjective` | sysdata/csv/csv_futures_contract_prices.py:66-70 | two contracts whose dates have no underscore share a key only if they are equal |
| `KeyNames.TwoPartInstrument` | sysdata/csv/csv_futures_contract_prices.py:90-95 | a key like GAS_US_20090700, two instrument parts and a plain date, decodes to the two-part instrument code and the date |
| `KeyNames.AmbiguousDate` | sysdata/csv/csv_futures_contract_prices.py:83-95 | a contract whose date holds an underscore decodes to a different contract: the date's first part moves into the instrument code |
| `KeyNames.DecodeAll` | sysdata/csv/csv_futures_contract_prices.py:192-195 | the enumeration succeeds exactly when every key decodes; it then gives one contract per key in order, and otherwise the error of the first bad key |
| `PriceTables.Insert` | sysdata/csv/csv_futures_contract_prices.py:143 | adding a line to an ascending table keeps it ascending; the result holds that line plus the old lines with other timestamps |
| `PriceTables.Collapse` | sysdata/csv/csv_futures_contract_prices.py:143 | the collapsed table is strictly ascending, and its lines are exactly the (timestamp, last-wins row) pairs of the input |
| `PriceTables.LastIndex` | sysdata/csv/csv_futures_contract_prices.py:143 | the index of the last line with a timestamp: -1 exactly when no line has it, and otherwise a line with that timestamp that no later line shares |
| `PriceTables.LastWinsIsLastIndex` | sysdata/csv/csv_futures_contract_prices.py:143 | the last-wins map and the last-index definition agree: a timestamp has a row exactly when some line has it, and the row comes from its last line |
| `PriceTables.CollapseTimes` | sysdata/csv/csv_futures_contract_prices.py:143 | the collapse keeps exactly the input's timestamps, adding none and dropping none |
| `PriceTables.CollapseSpec` | sysdata/csv/csv_futures_contract_prices.py:143 | one line per timestamp in ascending order, exactly the input's timestamps, each line equal to the last input line with its timestamp |
| `PriceTables.CollapseAscending` | sysdata/csv/csv_futures_contract_prices.py:143 | a table that already has strictly ascending timestamps is left unchanged |
| `PriceTables.CollapseIdempotent` | sysdata/csv/csv_futures_contract_prices.py:143 | collapsing twice gives the same table as collapsing once |
| `PriceTables.LaterDuplicateWins` | sysdata/csv/csv_futures_contract_prices.py:143 | two lines with one timestamp collapse to the later line |
| `CsvFuturesContractPrices.CsvDirectory.ReadFile` | sysdata/csv/csv_futures_contract_prices.py:129-141 | reading a key gives its stored table, or nothing when there is no file (the OSError case) |
| `CsvFuturesContractPrices.CsvDirectory.WriteFile` | sysdata/csv/csv_futures_contract_prices.py:169-171 | writing replaces a file's whole contents; a new key joins the listing, other files stay as they were |
| `CsvFuturesContractPrices.CsvFuturesContractPriceData.constructor` | sysdata/csv/csv_futures_contract_prices.py:12-43 | data path and directory are stored; with no config, the defaults are index name DATETIME, the default date format, no column mapping, skiprows 0, skipfooter 0, multiplier 1.0 and inverse false |
| `CsvFuturesContractPrices.CsvFuturesContractPriceData.Create` | sysdata/csv/csv_futures_contract_prices.py:37-43 | creation fails with NeedDatapath exactly when no data path is passed |
| `CsvFuturesContractPrices.CsvFuturesContractPriceData.HasMergedPriceData` | sysdata/csv/csv_futures_contract_prices.py:199-204 | true exactly when the listing holds the contract's key, that is, when a file is stored for it |
| `CsvFuturesContractPrices.CsvFuturesContractPriceData.GetMergedPrices` | sysdata/csv/csv_futures_contract_prices.py:117-143 | a contract with no file reads as the empty table without failing; otherwise the read gives the stored lines, collapsed and ascending, drawn only from the file |
| `CsvFuturesContractPrices.CsvFuturesContractPriceData.WriteMergedPrices` | sysdata/csv/csv_futures_contract_prices.py:154-171 | the contract's file is replaced, every other file is unchanged, and afterwards the contract has data while other keys keep their status |
| `CsvFuturesContractPrices.CsvFuturesContractPriceData.DeleteMergedPrices` | sysdata/csv/csv_futures_contract_prices.py:179-184 | delete always fails with NotImplemented and the source's message, whether or not data exists, and changes nothing |
| `CsvFuturesContractPrices.CsvFuturesContractPriceData.ContractsWithMergedPriceData` | sysdata/csv/csv_futures_contract_prices.py:186-219 | the stored keys decoded in listing order, one contract per key, each the decoding of its key; each contract encodes to its key and has data; any malformed key fails the enumeration |
| `CsvFuturesContractPrices.WriteThenRead` | sysdata/csv/csv_futures_contract_prices.py:159-171 | with the default read configuration, reading after a write gives the written table collapsed, and an ascending table comes back exactly |
| `CsvFuturesContractPrices.OverwriteThenRead` | sysdata/csv/csv_futures_contract_prices.py:159-171 | with the default read configuration, a second write replaces the first: the read gives the second table collapsed |

## Left out

- The inverse and multiplier loop at lines 144-148 is not modelled. It is floating-point arithmetic on pandas Series. Also, `1 / column_series` makes a new Series that is never assigned back, and whether `*=` reaches the frame depends on pandas copy semantics. `GetMergedPrices` therefore returns the collapsed table with no transform.
- CSV parsing is not modelled: the date format, the column mapping, and skiprows/skipfooter all live inside `pd_readcsv`. The configuration is stored but never used.
- Only a missing file is modelled as a read failure (the `OSError` branch). Other parse failures happen inside pandas and would propagate.
- pandas `last()` skips nulls column by column. Rows are modelled as whole, non-null records.
- `DefaultDateFormat`: the library default date format comes from `syscore/pdutils.py`, which is not part of this model. It is kept as a tag, not as a literal format string.
- File names and paths (`_filename_given_key_name`, `get_filename_for_package`) are not modelled. Files are keyed directly by the key name.
- The directory listing order is not specified by the file system. The model lists keys in the order they were first written, and every enumeration property is stated against whatever the listing holds.
- `HasMergedPriceData`: the source returns `None`, not `False`, when the key is missing. The model returns `false`.
- Logging (`log.warn`, `log.error`) and `__repr__` are not modelled.
- The base class `futuresContractPriceData` and the `futuresContract` / `futuresContractPrices` objects are not modelled. Contracts are `(instrument, date)` pairs, and `get_contracts_with_merged_price_data` returns those pairs.
- WriteThenRead: stated only for a repository with the default configuration, because a non-default one (skipped rows, a column mapping, a date format, a multiplier) changes what the source reads back, and that parsing and transform are not modelled.
- OverwriteThenRead: stated only for the default configuration, for the same reason as WriteThenRead.
- Concurrent writers are not modelled. Operations are sequential calls on one directory object.
