/** The values that flow between the fetcher and the aligner of the
    renewable-energy analysis script. */
module EnergyData {

  /** `None` is the script's "no data" return value. */
  datatype Option<+T> = None | Some(value: T)

  datatype Result<+T, +E> = Success(value: T) | Failure(error: E)

  /** The `generation` field of a JSON record: a number, an explicit
      null, or not present in the object at all. */
  datatype Field = Number(amount: int) | Null | Absent

  /** One observation as the statistics API returns it: the year label,
      the generation field, and whatever other fields the JSON object has. */
  datatype Record = Record(period: string, generation: Field, otherFields: map<string, string>)

  /** One entry of the name -> record-list dictionary that the fetcher
      builds and the aligner consumes. */
  datatype Series = Series(name: string, records: seq<Record>)

  /** Dictionary keys are unique. */
  predicate UniqueSeriesNames(raw: seq<Series>)
  {
    forall a, b :: 0 <= a < b < |raw| ==> raw[a].name != raw[b].name
  }

  /** No year occurs twice in one series. */
  predicate UniquePeriods(records: seq<Record>)
  {
    forall a, b :: 0 <= a < b < |records| ==> records[a].period != records[b].period
  }
}
