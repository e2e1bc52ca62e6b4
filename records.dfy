/** The values the snapshot commands of `src/main.rs` pass between their parts. */
module Records {
  import opened Ioctl

  /** An instant, as an integer count on the time line (a `jiff::Timestamp`). */
  type Time = int

  /** A directory entry name, as raw bytes. */
  type Name = seq<u8>

  /** The labels `run_prune` appends to a snapshot's keep reason, one per rule. */
  datatype Reason = LastWithin | LastN | Hourly | Daily | Weekly | Yearly

  /**
   * `SnapshotInfo`: a snapshot found in the target directory. The keep
   * reason is the list of labels in the order the rules appended them;
   * an empty list marks the snapshot for deletion.
   */
  datatype Snapshot = Snapshot(fileName: Name, time: Time, keepReason: seq<Reason>)

  /** The errors the snapshot commands report. */
  datatype Error =
    | NoPolicy                           // no retention rule given
    | NonPositiveWithin                  // `--keep-within` with a span that is not positive
    | ReadDirFailed                      // an entry of the target directory could not be read
    | BadTimestamp(name: Name)           // prefix matched but the rest is not a timestamp
    | NotSubvolume(name: Name)           // a matching directory that is not a subvolume
    | SourceNotSubvolume                 // the snapshot source is not a subvolume
    | RoundFailed(unit: Reason, time: Time)  // calendar rounding out of range
    | Os(errno: Errno)                   // a control call failed

  /** The snapshots ordered latest first. */
  ghost predicate SortedDesc(s: seq<Snapshot>)
  {
    forall i, j :: 0 <= i < j < |s| ==> s[i].time >= s[j].time
  }
}
