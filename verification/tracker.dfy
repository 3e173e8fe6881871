/** The issue tracker as the report generator sees it: a client whose
    `issue(key)` call fetches one record. The records are a parameter and
    every call is logged, so that how often the tracker is asked can be
    stated. */
module Tracker {
  import opened Wrappers
  import opened StatusUpdates

  /** An epic's record in the tracker: its key and its comments, in the
      order the tracker returns them. */
  datatype EpicRecord = EpicRecord(key: string, comments: seq<Comment>)

  /** The tracker has no issue with this key. */
  datatype TrackerError = NotFound(key: string)

  class Client {
    /** What the tracker holds, by issue key. */
    const records: map<string, EpicRecord>
    /** The keys asked for so far, in order. */
    var log: seq<string>

    constructor (records: map<string, EpicRecord>)
      ensures this.records == records && log == []
    {
      this.records := records;
      log := [];
    }

    /** `client.issue(key)`: one request to the tracker. */
    method GetIssue(key: string) returns (r: Result<EpicRecord, TrackerError>)
      modifies this
      ensures log == old(log) + [key]
      ensures r == if key in records then Ok(records[key]) else Err(NotFound(key))
    {
      log := log + [key];
      if key in records {
        r := Ok(records[key]);
      } else {
        r := Err(NotFound(key));
      }
    }
  }
}
