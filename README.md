# Crypto price ingestion and LSTM windowing, modelled in Dafny

The repository has two pipelines. Ingestion fetches OHLC (open, high, low,
close) price bars for a few coins and writes them to the `crypto_data` table.
Training reads one coin's closing prices, scales them, cuts them into
sliding windows and fits a recurrent network. This project models the two
pieces of logic the repository implements itself:

- **Row shaping and deduplicating insert** (`crypto-data.py`).
  `MarketData.ProcessMarketData` lays out each `[timestamp, open, high, low, close]`
  entry of the endpoint's answer as one bar. It converts the millisecond
  timestamp to a nanosecond instant, as pandas does, and fails as a whole
  when an instant does not fit pandas' signed 64-bit range.
  `CryptoStore.CryptoTable.SaveToDb` is the `save_to_db` loop. For each bar
  in order it counts the rows with the same `(coin_id, timestamp)` key and
  appends the bar only when the count is zero. It is proved against the
  specification function `CryptoStore.SaveAll`. The lemmas about `SaveAll`
  cover:
  - which keys are present afterwards;
  - exactly which rows are appended, and in what order;
  - keeping keys unique;
  - idempotence;
  - leaving earlier rows untouched.
- **Sliding-window builder** (`lstm-model-training-data.py`, `prepare_data`).
  `TrainingWindows.PrepareData` is the loop that appends one window and one
  target per offset. It is proved against the specification function
  `TrainingWindows.Samples`. The lemmas about `Samples` cover:
  - the count, `max(0, L - lookBack)`;
  - the window and target at each offset;
  - the overlap of consecutive windows;
  - recovering the series from the first window and the targets;
  - windowing commuting with an element-wise scaler;
  - the series 1..5 with look-back 2.

Modelling choices:
- The database table is a `seq<Row>` field of a class. The `SELECT COUNT(*)`
  query is the function `CountKey`, and the `INSERT` is an append.
- Prices are `real`.
- Timestamps are integers: epoch milliseconds on input and nanoseconds once
  converted. Keys are compared at nanosecond precision. The `TIMESTAMP`
  column keeps microseconds, so the database compares at microsecond
  precision. The two agree on every bar `ProcessMarketData` produces, since
  those are whole milliseconds. They differ only for arbitrary bars given
  straight to `SaveToDb`, which the model also accepts.
- The window builder is generic in the element type. It takes the
  already-scaled series as input. The script calls it with the default
  look-back of 30.

## Model

| member | source | states |
|---|---|---|
| MarketData.FromEpochMs | crypto-data.py:85 | converting epoch milliseconds to a timestamp loses nothing: reading the milliseconds back gives the input |
| MarketData.DistinctMillisDistinctTimestamps | crypto-data.py:85 | the millisecond conversion is injective |
| MarketData.ProcessMarketData | crypto-data.py:82-86 | succeeds exactly when every timestamp is representable; on success gives one bar per entry, in order, with the timestamp being the first element read as epoch milliseconds and open, high, low, close the next four elements |
| MarketData.ProcessedTimestampsDistinct | crypto-data.py:84-85 | entries with distinct millisecond values give bars with distinct timestamps |
| CryptoStore.CountKey | crypto-data.py:56-61 | the existence count is zero exactly when no row holds the (coin id, timestamp) key, and never exceeds the row count |
| CryptoStore.InsertIfAbsent | crypto-data.py:56-65 | one step keeps the old rows as a prefix, adds at most one row, adds one exactly when the key was absent, the added row is the bar under the coin id, and afterwards the key is present |
| CryptoStore.SaveAllExtends | crypto-data.py:62-65 | rows already in the table are kept unchanged as a prefix; at most one row per bar is added, and every added row is some bar of the batch under the coin id |
| CryptoStore.SaveAllHasKey | crypto-data.py:54-65 | after the batch a key is present if and only if it was present before or it is the coin id with some bar's timestamp |
| CryptoStore.SaveAllCoversBatch | crypto-data.py:54-65 | every bar's (coin id, timestamp) key is present after the batch |
| CryptoStore.SaveAllAppendsFirstNewOccurrences | crypto-data.py:54-65 | the table after the batch is the old table followed by, in batch order, exactly the bars whose key was not in the table and not held by an earlier bar of the batch |
| CryptoStore.SaveAllPreservesUniqueKeys | crypto-data.py:54-67 | if keys are unique before the batch they are unique after it, even when the batch repeats a timestamp |
| CryptoStore.SaveAllPresentIsNoOp | crypto-data.py:56-61 | a batch whose keys are all present leaves the table unchanged |
| CryptoStore.SaveAllIdempotent | crypto-data.py:54-65 | writing the same batch for the same coin twice leaves the same table as writing it once |
| CryptoStore.CryptoTable.SaveToDb | crypto-data.py:45-69 | the check-then-insert loop leaves the table equal to the old table followed by the first new occurrences in batch order; every bar's key is present afterwards and unique keys stay unique |
| TrainingWindows.PrepareData | lstm-model-training-data.py:30-34 | the loop gives equally long input and target lists of max(0, L - lookBack) entries; input i is the slice of lookBack values at offset i, target i the value right after it, and pair i is sample i |
| TrainingWindows.SampleAt | lstm-model-training-data.py:31-33 | every index used is in bounds; window i has length lookBack and equals the slice at offset i, and target i is the value at i + lookBack |
| TrainingWindows.SamplesEmptyIffShort | lstm-model-training-data.py:31 | no samples exactly when the series is no longer than the look-back; otherwise L - lookBack samples |
| TrainingWindows.ConsecutiveWindowsOverlap | lstm-model-training-data.py:32-33 | for a positive look-back, window i + 1 is window i without its first value followed by target i |
| TrainingWindows.ReassembleSamples | lstm-model-training-data.py:31-33 | the first window followed by all targets gives back the whole series, so no value is lost or reordered |
| TrainingWindows.SamplesCommuteWithScaling | lstm-model-training-data.py:28-33 | windowing an element-wise scaled series gives the element-wise scaled windows and targets of the original series |
| TrainingWindows.FiveClosesLookBackTwo | lstm-model-training-data.py:27-34 | the series 1..5 with look-back 2 gives exactly [1, 2] -> 3, [2, 3] -> 4, [3, 4] -> 5 |

## Left out

- Fetching market data (`fetch_market_data`, crypto-data.py:72-80) is HTTP I/O, including the error raised on a non-success status. Its JSON answer is typed here as five-number entries. Entries of another length cannot be represented. For such input, `pd.DataFrame` (crypto-data.py:84) pads short entries with missing values (NaN prices, a NaT timestamp) as long as some entry has five elements. It raises only when some entry is longer than five, or when every entry is shorter.
- The error raised for an out-of-range timestamp carries no message text. The model only says that the conversion fails.
- The millisecond value -9223372036854775808 (the smallest 64-bit integer) is pandas' "not a time" marker. `pd.to_datetime` turns it into NaT without raising. The model has no NaT value and reports it as out of range.
- Prices are `real`. The rounding of float64 values and of the driver's conversion to `NUMERIC` is not modelled.
- The serial `id` column is not modelled, because no modelled operation reads it. The `VARCHAR(50)` limit on `coin_id` is not modelled either: the model stores any string, while the database would reject or truncate longer ids. The script only passes four short symbols.
- Connecting to the database, `create_table` and its connection handling (crypto-data.py:16-43), and commit and close (crypto-data.py:67-69) are driver plumbing. Only the logical effect of the check-and-insert loop on the table is modelled. A driver failure part-way through, which would roll back the uncommitted inserts, is not modelled.
- Concurrent writers racing between the existence check and the insert are outside this sequential model.
- Loading configuration from the environment (crypto-data.py:10-14, lstm-model-training-data.py:11-19) is not modelled. Neither is the `main` loop over the hard-coded coins (crypto-data.py:88-100).
- Reading the history (`get_historical_data`, lstm-model-training-data.py:22-24) is an SQL query run through pandas.
- Min-max scaling (lstm-model-training-data.py:28-29) is foreign floating-point code. `PrepareData` takes the scaled series as input. `SamplesCommuteWithScaling` covers the scaler only as some element-wise map. The fitted scaler object that `prepare_data` returns is not modelled. The scaler raises on an empty series, so `prepare_data` raises for an empty series. On that input `PrepareData` models the loop alone and returns zero windows.
- PrepareData: `lookBack` is a natural number. A negative look-back would use Python's negative indexing and produce ragged windows. The script only uses 30.
- Training and saving the network (`train_lstm_model`, `save_model`, lstm-model-training-data.py:37-51) are Keras internals, floating point and file I/O.
