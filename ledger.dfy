/**
 * The change-detection ledger shared by both build scripts: the file
 * `raw_data_source_status.json`, mapping a logical source name to the instant
 * its source was last processed (instants are modelled as integers, the
 * milliseconds that `toISOString` writes and `new Date` reads back).
 */
module Ledger {
  import opened Wrappers

  /**
   * `shouldProcess`: run when nothing is recorded, or when the current
   * modification time is strictly later than the recorded one.
   */
  function ShouldProcess(current: int, last: Option<int>): (run: bool)
    ensures last.None? ==> run
    ensures last.Some? ==> (run <==> last.value < current)
  {
    last.None? || current > last.value
  }

  /** Once a stage has recorded `time`, a source still modified at `time` is skipped; any later time reruns it. */
  lemma RecordedSourceIsSkipped(ledger: map<string, int>, key: string, time: int, later: int)
    requires later > time
    ensures !ShouldProcess(time, Lookup(ledger[key := time], key))
    ensures ShouldProcess(later, Lookup(ledger[key := time], key))
  {
  }

  /** Recording one key leaves the decision for every other key as it was. */
  lemma RecordingIsolatesKeys(ledger: map<string, int>, key: string, time: int, other: string, current: int)
    requires other != key
    ensures ShouldProcess(current, Lookup(ledger[key := time], other)) == ShouldProcess(current, Lookup(ledger, other))
  {
  }

  /** A source that must be processed at one time must also be processed at any later time. */
  lemma ShouldProcessMonotonic(current: int, later: int, last: Option<int>)
    requires current <= later && ShouldProcess(current, last)
    ensures ShouldProcess(later, last)
  {
  }

  /**
   * A missing source whose key already holds an instant from 0 on is not
   * stale: its absent modification time reads as instant 0, which is not
   * later, so the stage is skipped rather than reported as missing.
   */
  lemma MissingRecordedSourceIsSkipped(status: StatusFile, key: string)
    requires key in status.Load() && status.Load()[key] >= 0
    ensures !status.IsStale(key, None)
  {
  }

  /** The status file on disk: whether it exists, and what it holds when it does. */
  class StatusFile {
    var present: bool
    var contents: map<string, int>

    constructor (present: bool, contents: map<string, int>)
      ensures this.present == present && this.contents == contents
    {
      this.present := present;
      this.contents := contents;
    }

    /** `loadStatus()`: the parsed file, or an empty ledger when there is no file. */
    function Load(): (status: map<string, int>)
      reads this
      ensures !present ==> status == map[]
      ensures present ==> status == contents
    {
      if present then contents else map[]
    }

    /** `status[key]` after `loadStatus()`. */
    function LastProcessed(key: string): Option<int>
      reads this
    {
      Lookup(Load(), key)
    }

    /**
     * The transit script's `shouldProcess(filePath, key)`: it loads the ledger
     * and compares with the file's modification time; a missing file has no
     * time, and `new Date(null)` reads as the instant 0.
     */
    function IsStale(key: string, mtime: Option<int>): (stale: bool)
      reads this
      ensures key !in Load() ==> stale
      ensures key in Load() && mtime.Some? ==> (stale <==> Load()[key] < mtime.value)
      ensures key in Load() && mtime.None? ==> (stale <==> Load()[key] < 0)
    {
      ShouldProcess(mtime.GetOr(0), LastProcessed(key))
    }

    /**
     * `saveStatus(key, time)`: load the ledger, set one key, write the whole
     * ledger back. Every other key keeps its recorded instant.
     */
    method Save(key: string, time: int)
      modifies this
      ensures present && contents == old(Load())[key := time]
      ensures LastProcessed(key) == Some(time)
      ensures forall other :: other != key ==> LastProcessed(other) == old(LastProcessed(other))
    {
      var status := Load();
      status := status[key := time];
      present, contents := true, status;
    }
  }
}
