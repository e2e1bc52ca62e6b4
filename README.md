# simple-snap: snapshot retention and btrfs control calls, in Dafny

This project models the core of `simple-snap`, a tool that creates timestamped
btrfs snapshots of a subvolume and prunes old ones under a retention policy.
It covers two pieces:

- **Pruning** (`src/main.rs`). `run_prune` validates the policy and lists the
  snapshots in the target directory, latest first (`list_snapshots`). It then
  tags every snapshot with the rules that keep it: `keep_within`, `keep_last`,
  and the hourly, daily, weekly and yearly calendar rules. The untagged
  snapshots make up the delete list. `run_snapshot` decides whether a new
  snapshot is needed (the `skip_if_unchanged` check) and, if so, creates it.
- **Control calls** (`src/ioctl.rs`). `copy_os_str` writes a name into the
  fixed-capacity `name` array of `btrfs_ioctl_vol_args_v2`, and
  `snap_create_v2` / `snap_destroy_v2` fill that struct in.

Modules, one per component:

| file | module | models |
|---|---|---|
| `results.dfy` | `Results` | `Option`, `Result` |
| `ioctl.dfy` | `Ioctl` | `src/ioctl.rs`: name encoder, argument struct, the two request builders |
| `records.dfy` | `Records` | `SnapshotInfo`, keep-reason labels, errors, time |
| `policy.dfy` | `Policy` | `RetentionPolicy`, `is_valid`, the checks at the start of `run_prune` |
| `inventory.dfy` | `Inventory` | `list_snapshots`: filtering, error cases, sort |
| `retention.dfy` | `Retention` | the `keep_within`, `keep_last` and calendar walks, each in place on an array |
| `prune.dfy` | `Prune` | `run_prune`: the order of the passes, the delete list, the internal check, dry run |
| `create.dfy` | `Create` | `run_snapshot`: change detection and the create call |

How the model represents the source:

- Time is an integer instant. Each calendar rounding (the local-zone hour,
  day, next-Monday and year boundaries computed with `jiff`) is a parameter of
  type `Time -> Option<Time>`. `None` stands for a rounding error.
- Parsing a timestamp out of a name suffix is also a parameter. This covers
  both the UTF-8 check and the RFC 3339 parse.
- `run_prune` reads the clock twice. The `now` used to drop future snapshots
  and the `keep_since` instant (a second reading minus the span) are
  separate inputs.
- The directory is the sequence of entries it yields. Each entry carries its
  name, whether it is a directory, and whether the subvolume probe on it
  succeeded. An unreadable entry is its own variant.
- The keep reason, a comma-joined string in the source, is the list of labels
  in the order they were appended. An empty list means "delete".
- `c_char` is the signed byte of x86_64, and `b as _` is written out as the
  two's-complement reinterpretation `AsCChar`. The capacity of the name array
  is `BTRFS_SUBVOL_NAME_MAX + 1 = 4040`, and `BTRFS_SUBVOL_RDONLY` is `2`.
- A kernel call's outcome is a parameter. The builders return the request
  they would issue (command, directory fd, argument struct as passed by
  value), or `None` when they fail before issuing it.

Behaviour of the code a reader might not expect, modelled as written:

- `keep_monthly` counts for `is_valid` (src/main.rs:136), but
  `calendar_policies` has no entry for it (src/main.rs:263-277). It is
  therefore never applied. `Prune.MonthlyNeverApplied` states this, and
  `Prune.MonthlyAlonePanics` shows that with `keep_monthly` alone every
  non-empty listing fails the internal `assert!`.
- The `assert!` at src/main.rs:310-313 is guaranteed only when `keep_last` or
  one of the four applied calendar rules is given (`Prune.NoPanicWhenLatestKept`).
  With `keep_within` alone and every snapshot older than the window, it fails
  (`Prune.WithinAloneMayPanic`). The model represents that failure as the
  result `Panicked`.
- `keep_within` tags the leading run of snapshots with `time >= keep_since`
  (`take_while`), not every such snapshot. The two agree on a latest-first
  list (`Retention.WithinOnSorted`).
- A subvolume name is also rejected by `snap_destroy_v2` when it contains a
  NUL or is too long, exactly as for creation.

## Model

| member | source | states |
|---|---|---|
| Ioctl.AsCChar | src/ioctl.rs:17-19 | the `b as c_char` cast maps exactly the zero byte to the NUL character, keeps bytes below 128 unchanged and maps bytes from 128 up to `b - 256` (two's complement) |
| Ioctl.AsByte | src/ioctl.rs:17-19 | reading a `c_char` back as a byte is a right inverse of the cast |
| Ioctl.EncodeName | src/ioctl.rs:17-19 | the name array of the zeroed struct after a successful copy holds each name byte cast to `c_char`, then NULs up to the capacity; a NUL-free name yields no NUL before its end |
| Ioctl.DecodeName | src/ioctl.rs:17-19 | reading the array as a NUL-terminated string gives a NUL-free name no longer than the array, whose bytes cast back to the array's leading elements, followed by a NUL when the name is shorter than the array |
| Ioctl.DecodeNulTerminated | src/ioctl.rs:17-19 | a buffer holding the NUL-free name and then a NUL reads back, up to its first NUL, as that name |
| Ioctl.DecodeEncode | src/ioctl.rs:12-21 | every name the encoder accepts round-trips through the zeroed name array |
| Ioctl.CopyOsStr | src/ioctl.rs:12-21 | fails with EINVAL iff the source has a 0 byte or its length is at least the capacity; on failure the array is unchanged; on success the first `len` elements hold the source and the rest are unchanged |
| Ioctl.VolArgsV2.Zeroed | src/ioctl.rs:31 | the zero-initialised struct has fd 0, flags 0 and an all-NUL name array of capacity 4040 |
| Ioctl.SnapCreateV2 | src/ioctl.rs:24-47 | no request and EINVAL iff the name is invalid; otherwise one create request on the parent dir with fd = source fd, flags = RDONLY iff read-only else 0, the name NUL-padded and decoding back to the name, and the kernel outcome returned unchanged |
| Ioctl.SnapDestroyV2 | src/ioctl.rs:62-78 | no request and EINVAL iff the name is invalid; otherwise one destroy request on the parent dir with fd 0 and flags 0 (located by parent and name only), the name decoding back to the name |
| Policy.IsValid | src/main.rs:128-138 | each of the seven options on its own makes the policy valid |
| Policy.IsValidIffSomeRuleGiven | src/main.rs:128-138 | `is_valid` holds iff at least one of the seven options is given |
| Policy.Validate | src/main.rs:232-236 | `NoPolicy` iff no option is given; `NonPositiveWithin` iff some option is given and the `keep_within` span is not positive; otherwise success |
| Inventory.Examine | src/main.rs:369-396 | one directory entry: kept exactly as the snapshot the listing accepts for it; an error iff it is unreadable, or matches the prefix and has an unparsable suffix or is not a subvolume; a matching non-subvolume is an error whatever its time |
| Inventory.Candidates | src/main.rs:363-403 | the collected snapshots are no more than the entries, each no later than `now`, named with the prefix and with an empty keep reason |
| Inventory.CandidatesSpec | src/main.rs:363-403 | the collected snapshots are exactly the directories other than `.`/`..` whose name is the prefix plus a timestamp no later than `now` and that are subvolumes; an error occurs iff some entry is unreadable, or matches the prefix and has an unparsable suffix or is not a subvolume (even when future-dated); the error is that of the first such entry |
| Inventory.ListingEntries | src/main.rs:369-396 | every snapshot of a successful listing comes from a subvolume directory other than `.`/`..` whose name starts with the prefix, and its time is no later than `now` |
| Inventory.ListSnapshots | src/main.rs:356-409 | fails exactly as the collection does, with the same error; otherwise returns a permutation of the collected snapshots sorted latest first |
| Inventory.SortByTimeDesc | src/main.rs:405-406 | the array ends sorted by non-increasing time and is a permutation of its old contents |
| Retention.LeadingRun | src/main.rs:249-252 | the run length is the number of leading snapshots at or after `keep_since`: all before it qualify and the one at it, if any, does not |
| Retention.WithinKeepsLeadingRun | src/main.rs:247-255 | `keep_within` tags a snapshot iff it and every snapshot before it are at or after `keep_since` |
| Retention.WithinOnSorted | src/main.rs:247-255 | on a latest-first list `keep_within` tags a snapshot iff its time is at or after `keep_since` |
| Retention.TagWithin | src/main.rs:247-255 | the in-place pass appends the `keep_within` label to exactly the snapshots of the leading run and changes nothing else |
| Retention.LastKeepsMin | src/main.rs:256-260 | `keep_last(N)` tags exactly `min(N, len)` snapshots |
| Retention.TagLast | src/main.rs:256-260 | the in-place pass appends the `keep_last` label to exactly the first `N` snapshots |
| Retention.CalendarMarks | src/main.rs:278-297 | a calendar walk that succeeds marks one flag per snapshot; one that fails reports a rounding failure for its own unit |
| Retention.MarksTimesOnly | src/main.rs:282-296 | the calendar walk reads only the snapshots' times: lists of equal length and equal times get equal marks or the same error |
| Retention.CalendarMarksAt | src/main.rs:283-296 | a snapshot is tagged iff fewer than N tags came before it, its time rounds, and its bucket differs from the previous snapshot's; every snapshot visited before the N-th tag rounds |
| Retention.CalendarKeepsAtMost | src/main.rs:290-295 | a calendar rule tags at most N snapshots |
| Retention.CalendarKeepsFirst | src/main.rs:282-290 | a calendar rule that succeeds always tags the latest snapshot |
| Retention.CalendarStopsAfterCount | src/main.rs:292-295 | after the N-th tag no further snapshot is tagged |
| Retention.CalendarIgnoresAfterCount | src/main.rs:292-295 | the `break`: once the walk over a prefix has made all N tags, the snapshots after it are neither rounded nor tagged, so a rounding failure among them cannot fail the walk |
| Retention.CalendarFailsOnlyOnRoundFailure | src/main.rs:282-295 | the walk fails only with the rounding failure of a snapshot it visits (the walk over the snapshots before it made fewer than N tags), so it succeeds whenever every visited snapshot rounds, in particular when every time rounds |
| Retention.CalendarOnePerBucket | src/main.rs:278-297 | on a latest-first list with a monotone rounding, any two snapshots a calendar rule tags lie in different buckets |
| Retention.TagCalendar | src/main.rs:278-297 | the in-place walk fails iff its specification fails, with the same error; on success it appends the unit's label to exactly the marked snapshots |
| Prune.MarkedBySameTimes | src/main.rs:278-297 | whether a calendar rule keeps a snapshot depends only on the listed times, not on the labels earlier passes appended |
| Prune.ApplyCalendarKeptIff | src/main.rs:278-297 | after the calendar passes a snapshot is kept iff it was kept before or some rule with a count keeps it in its walk over the list |
| Prune.PlanKeptIff | src/main.rs:247-297 | a snapshot survives the plan iff `keep_within` keeps it (leading run at or after `keep_since`), or `keep_last` does (among the first N), or one of the applied calendar rules does, or it was already kept |
| Prune.CalendarRules | src/main.rs:263-277 | the rules applied are hourly, daily, weekly and yearly, in that order, each with the count of its own option and the rounding of its own unit; there is no monthly rule |
| Prune.ApplyCalendar | src/main.rs:278-297 | applying the calendar rules keeps every name and time and only appends to keep reasons |
| Prune.DeletePartition | src/main.rs:299-308 | the deleted and the kept names together are all the names, each once, and their counts add up to the number of snapshots |
| Prune.DeleteNamesExact | src/main.rs:299-308 | a name is in the delete list iff it belongs to a snapshot with an empty keep reason |
| Prune.DeleteShorterIffSomeKept | src/main.rs:310-313 | the delete list is shorter than the snapshot list iff some snapshot is tagged |
| Prune.CollectDeletes | src/main.rs:299-308 | the loop collects the names of the untagged snapshots in list order |
| Prune.Decide | src/main.rs:242-330 | a listing error propagates; `NoSnapshots` iff the listing is empty; the internal check fails only on a non-empty listing; a dry run never deletes and reports a delete list shorter than the plan; deletion happens only outside dry run with a non-empty list |
| Prune.RunPrune | src/main.rs:226-330 | an invalid policy fails with its validation error before anything is listed; otherwise the outcome is the decision taken on a listing that `list_snapshots` may return |
| Prune.ApplyCalendarKeepsFirst | src/main.rs:278-297 | if some calendar rule has a count, the latest snapshot ends up tagged |
| Prune.PlanKeepsLatest | src/main.rs:256-297 | with `keep_last` or an applied calendar rule, a successful plan tags the latest snapshot |
| Prune.ApplyCalendarFailsOnRound | src/main.rs:284-285 | a failing calendar pass fails with a rounding failure of one of its rules on the time of a listed snapshot |
| Prune.PlanFailsOnlyOnRound | src/main.rs:278-297 | a plan fails only with a rounding failure, on a listed snapshot's time, under the rounding of the failing unit |
| Prune.DestroyOnlyPlanned | src/main.rs:299-330 | a rounding failure ends the run with that error; deletion is reached only outside dry-run mode, with a non-empty list that is exactly the untagged snapshots and with some snapshot kept |
| Prune.NoPanicWhenLatestKept | src/main.rs:310-313 | with `keep_last` or an applied calendar rule the internal check never fails |
| Prune.MonthlyNeverApplied | src/main.rs:263-277 | the `keep_monthly` count has no effect on the decision |
| Prune.ApplyCalendarNoCounts | src/main.rs:279 | calendar rules without a count change nothing |
| Prune.UntaggedAllDeleted | src/main.rs:299-308 | when no snapshot is tagged, every snapshot is on the delete list |
| Prune.MonthlyAlonePanics | src/main.rs:136 | with `keep_monthly` alone the policy is accepted and every non-empty listing fails the internal check |
| Prune.WithinAloneMayPanic | src/main.rs:247-255 | with `keep_within` alone the policy is accepted, and a listing whose latest snapshot is older than `keep_since` fails the internal check |
| Create.SkipCheck | src/main.rs:186-202 | without the option nothing is skipped; a skip needs a listed snapshot, both metadata queries to succeed and the source to be unchanged; an error arises only with the option set, from the listing or a query |
| Create.SkipIff | src/main.rs:186-194 | creation is skipped iff asked for, a snapshot exists, both metadata queries succeed, the snapshot's parent UUID is the source UUID, and its creation transaction is the source generation |
| Create.FirstIsLatest | src/main.rs:188 | the first snapshot of the listing is one of the listed snapshots and none is later |
| Create.RunSnapshot | src/main.rs:160-224 | a non-subvolume source fails; a listing or query error propagates; a skip issues no create call and names a latest snapshot; otherwise a dry run reports the name `prefix ++ timestamp`, and a real run creates it read-only from the source fd, failing with EINVAL for an invalid name or with the kernel's error |

## Left out

- Command-line parsing, `main` dispatch and every message printed to standard error.
- The `jiff` library. RFC 3339 printing and parsing, the system time zone, span
  subtraction and calendar rounding are parameters. So are the clock readings:
  `now` and `keep_since` for pruning, and `now` with its printed form for
  creation. The model does not connect `keep_since` to the span.
- Opening and reading directories (`open_dir`, `Dir::read_from`) and file
  descriptor ownership. The directory is an input sequence. Failing to open
  the target directory, or failing to start reading it, is not modelled.
- The kernel calls themselves (`ioctl`, `subvol_getflags`) and the metadata query
  `ioctl::get_subvol_info`. The query is called by `run_snapshot` but is not
  defined in `src/ioctl.rs`, so it is not part of this model. Their results
  are inputs.
- The deletion loop of `run_prune` (src/main.rs:332-339). The model stops at the
  list of names it would be given (`Destroy`). Its partial progress depends
  only on kernel outcomes.
- The union layout of `btrfs_ioctl_vol_args_v2` and the unsafe zeroing. The
  struct is the class `VolArgsV2` with `fd`, `flags` and the name array.
- `sort_unstable_by_key` is modelled by an insertion sort. Its contract (some
  latest-first permutation) is all the model relies on; the order among equal
  times is left open, as in the source.
- Re-running a prune on its own kept set deleting nothing (idempotence) is not proved.
