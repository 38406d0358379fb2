/**
 * The ingestion side's row shaping: the market-data endpoint answers with a
 * list of `[timestamp, open, high, low, close]` entries, which are laid out
 * positionally as the columns of a table, and whose millisecond timestamps
 * are converted to calendar instants.
 */
module MarketData {

  datatype Result<T, E> = Ok(value: T) | Err(error: E)

  /** A calendar instant as pandas holds it: nanoseconds since the Unix epoch. */
  datatype Timestamp = Timestamp(nanos: int)

  const NanosPerMilli: int := 1_000_000

  /** Largest nanosecond value of a pandas timestamp (a signed 64-bit integer);
      the smallest is its negation, since -2^63 is reserved for "not a time". */
  const MaxNanos: int := 0x7FFF_FFFF_FFFF_FFFF

  /** One entry of the endpoint's answer: epoch milliseconds, open, high, low, close. */
  type OhlcTuple = (int, real, real, real, real)

  /** One row of the shaped table, with its columns named. */
  datatype Bar = Bar(timestamp: Timestamp, open: real, high: real, low: real, close: real)

  /** Raised by the millisecond conversion when an instant does not fit. */
  datatype ConversionError = OutOfBoundsDatetime

  /** Whether an epoch-millisecond value can be represented as a timestamp. */
  predicate InTimestampRange(ms: int)
  {
    -MaxNanos <= ms * NanosPerMilli <= MaxNanos
  }

  /** Reading an epoch-millisecond value back from a timestamp. */
  function ToEpochMs(t: Timestamp): int
  {
    t.nanos / NanosPerMilli
  }

  /** The conversion of one epoch-millisecond value; it loses nothing. */
  function FromEpochMs(ms: int): (t: Timestamp)
    ensures ToEpochMs(t) == ms
  {
    Timestamp(ms * NanosPerMilli)
  }

  /** Distinct millisecond values become distinct timestamps. */
  lemma DistinctMillisDistinctTimestamps(a: int, b: int)
    requires a != b
    ensures FromEpochMs(a) != FromEpochMs(b)
  {
  }

  /**
   * Shapes the endpoint's entries into bars, one per entry and in the same
   * order, reading the first element as epoch milliseconds and the other
   * four as open, high, low and close. The conversion fails as a whole when
   * any timestamp falls outside the representable range.
   */
  function ProcessMarketData(data: seq<OhlcTuple>): (r: Result<seq<Bar>, ConversionError>)
    ensures r.Ok? <==> forall i :: 0 <= i < |data| ==> InTimestampRange(data[i].0)
    ensures r.Ok? ==> |r.value| == |data|
    ensures r.Ok? ==> forall i :: 0 <= i < |data| ==>
      && ToEpochMs(r.value[i].timestamp) == data[i].0
      && r.value[i].timestamp == FromEpochMs(data[i].0)
      && r.value[i].open == data[i].1
      && r.value[i].high == data[i].2
      && r.value[i].low == data[i].3
      && r.value[i].close == data[i].4
  {
    if data == [] then Ok([])
    else if !InTimestampRange(data[0].0) then Err(OutOfBoundsDatetime)
    else
      match ProcessMarketData(data[1..])
      case Err(e) => Err(e)
      case Ok(rest) =>
        var (ms, open, high, low, close) := data[0];
        Ok([Bar(FromEpochMs(ms), open, high, low, close)] + rest)
  }

  /** The shaped bars keep the entries' timestamps apart: entries with
      distinct millisecond values give bars with distinct timestamps. */
  lemma ProcessedTimestampsDistinct(data: seq<OhlcTuple>, i: int, j: int)
    requires ProcessMarketData(data).Ok?
    requires 0 <= i < |data| && 0 <= j < |data|
    requires data[i].0 != data[j].0
    ensures ProcessMarketData(data).value[i].timestamp != ProcessMarketData(data).value[j].timestamp
  {
  }
}
