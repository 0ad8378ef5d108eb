/** Value types shared by the modules that model the Influx history back end. */
module InfluxTypes {

  datatype Option<+T> = None | Some(value: T)

  /** A tag of a measurement.  A tag with an empty sourceName applies to every process variable. */
  datatype TagInformation = TagInformation(key: string, value: string, sourceName: string)

  /** A field value, already printed; strings are quoted in the line protocol, all others are not. */
  datatype FieldValue = FieldValue(value: string, isString: bool)

  datatype PendingWritePoint = PendingWritePoint(
    influxFieldName: string,
    fieldValue: FieldValue,
    tags: seq<TagInformation>,
    timestampNanoseconds: Option<int>)

  /** The part of the configuration that the write client uses. */
  datatype WriteConfig = WriteConfig(
    enabled: bool,
    maxBatchPoints: nat,
    maxQueuePoints: nat,
    maxRetries: nat,
    retryBackoffMs: int,
    failFastOnAsyncError: bool,
    measurement: string,
    extraTags: seq<TagInformation>)
  {
    // The configuration loader enforces the two minimums; maxRetries is read into a size_t.
    ghost predicate Valid() {
      1 <= maxBatchPoints && 1 <= maxQueuePoints && maxRetries <= SIZE_MAX
    }
  }

  const SIZE_MAX: nat := 0xFFFF_FFFF_FFFF_FFFF
  const INT_MAX: int := 0x7FFF_FFFF
  const INT64_MAX: int := 0x7FFF_FFFF_FFFF_FFFF
  const INT64_MIN: int := -0x8000_0000_0000_0000

  function Min(a: int, b: int): int { if a <= b then a else b }

  function Max(a: int, b: int): int { if a <= b then b else a }

  /** Incrementing a size_t. */
  function Successor(a: nat): nat { if a >= SIZE_MAX then 0 else a + 1 }
}
