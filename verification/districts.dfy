/** The district record (`recommendations/models/district.py`), reduced to the
    fields the job, the ranking and the recommendation read or write. */
module Districts {

  import opened Wrappers

  /** `updatedAt` is a clock reading; the job stamps it with the time it saves the record. */
  datatype District = District(
    id: nat,
    name: string,
    latitude: real,
    longitude: real,
    avgTemp2pm: Option<real>,
    avgPm25: Option<real>,
    updatedAt: int)
}
