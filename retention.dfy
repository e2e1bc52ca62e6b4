/**
 * The tagging passes of `run_prune` in `src/main.rs`. Each rule walks the
 * snapshot list (latest first) and appends its label to the keep reason of
 * the snapshots it keeps. Each pass is a method that updates the array in
 * place and is proved equal to a function of the old contents: the rule's
 * marks (which snapshots it keeps) applied by `AddTag`.
 */
module Retention {
  import opened Results
  import opened Records

  /** Rounds an instant down to its calendar bucket in the local zone; `None` on overflow. */
  type Round = Time -> Option<Time>

  /** Appends `tag` to the keep reason of every snapshot marked in `marks`. */
  function AddTag(s: seq<Snapshot>, marks: seq<bool>, tag: Reason): (r: seq<Snapshot>)
    requires |marks| == |s|
    ensures |r| == |s|
    ensures forall i :: 0 <= i < |s| ==> r[i].fileName == s[i].fileName && r[i].time == s[i].time
  {
    seq(|s|, i requires 0 <= i < |s| =>
      if marks[i] then s[i].(keepReason := s[i].keepReason + [tag]) else s[i])
  }

  /** Number of marked positions. */
  function CountTrue(m: seq<bool>): nat
  {
    if m == [] then 0 else (if m[0] then 1 else 0) + CountTrue(m[1..])
  }

  lemma {:induction false} CountTrueAppend(a: seq<bool>, b: seq<bool>)
    ensures CountTrue(a + b) == CountTrue(a) + CountTrue(b)
  {
    if a == [] {
      assert a + b == b;
    } else {
      assert (a + b)[1..] == a[1..] + b;
      CountTrueAppend(a[1..], b);
    }
  }

  // ---------------------------------------------------------------------
  // keep_within

  /**
   * The length of the leading run of snapshots at or after `since`: the
   * run `take_while(|s| s.time >= keep_since)` visits.
   */
  function LeadingRun(s: seq<Snapshot>, since: Time): (n: nat)
    ensures n <= |s|
    ensures forall k :: 0 <= k < n ==> s[k].time >= since
    ensures n < |s| ==> s[n].time < since
  {
    if s == [] || s[0].time < since then 0 else 1 + LeadingRun(s[1..], since)
  }

  /** The snapshots `keep_within` keeps. */
  function WithinMarks(s: seq<Snapshot>, since: Time): (m: seq<bool>)
    ensures |m| == |s|
  {
    seq(|s|, j requires 0 <= j < |s| => j < LeadingRun(s, since))
  }

  /** `keep_within` keeps a snapshot iff it and every earlier-listed one are at or after `since`. */
  lemma WithinKeepsLeadingRun(s: seq<Snapshot>, since: Time, j: int)
    requires 0 <= j < |s|
    ensures WithinMarks(s, since)[j] <==> forall k :: 0 <= k <= j ==> s[k].time >= since
  {
    var n := LeadingRun(s, since);
    if j >= n {
      assert s[n].time < since;
    }
  }

  /** On a latest-first list the leading run is every snapshot at or after `since`. */
  lemma WithinOnSorted(s: seq<Snapshot>, since: Time, j: int)
    requires SortedDesc(s)
    requires 0 <= j < |s|
    ensures WithinMarks(s, since)[j] <==> s[j].time >= since
  {
    var n := LeadingRun(s, since);
    if n <= j {
      assert s[n].time < since;
      if n < j {
        assert s[n].time >= s[j].time;
      }
    }
  }

  /** The `keep_within` pass: tag the leading run of snapshots at or after `keepSince`. */
  method TagWithin(snaps: array<Snapshot>, keepSince: Time)
    modifies snaps
    ensures snaps[..] == AddTag(old(snaps[..]), WithinMarks(old(snaps[..]), keepSince), LastWithin)
  {
    ghost var s := snaps[..];
    var i := 0;
    while i < snaps.Length && snaps[i].time >= keepSince
      invariant 0 <= i <= snaps.Length
      invariant forall k :: 0 <= k < i ==> s[k].time >= keepSince
      invariant forall k :: 0 <= k < i ==> snaps[k] == s[k].(keepReason := s[k].keepReason + [LastWithin])
      invariant forall k :: i <= k < snaps.Length ==> snaps[k] == s[k]
    {
      snaps[i] := snaps[i].(keepReason := snaps[i].keepReason + [LastWithin]);
      i := i + 1;
    }
    assert i == LeadingRun(s, keepSince);
  }

  // ---------------------------------------------------------------------
  // keep_last

  /** The snapshots `keep_last(n)` keeps: the first `n`. */
  function LastMarks(len: nat, n: nat): (m: seq<bool>)
    ensures |m| == len
  {
    seq(len, j => j < n)
  }

  /** `keep_last(n)` keeps exactly `min(n, len)` snapshots, the most recent ones. */
  lemma {:induction false} LastKeepsMin(len: nat, n: nat)
    ensures CountTrue(LastMarks(len, n)) == if n < len then n else len
  {
    if len > 0 {
      LastKeepsMin(len - 1, n);
      var m := LastMarks(len, n);
      assert m == LastMarks(len - 1, n) + [len - 1 < n];
      CountTrueAppend(LastMarks(len - 1, n), [len - 1 < n]);
      assert CountTrue([len - 1 < n]) == if len - 1 < n then 1 else 0;
    }
  }

  /** The `keep_last` pass: tag the first `n` snapshots. */
  method TagLast(snaps: array<Snapshot>, n: nat)
    modifies snaps
    ensures snaps[..] == AddTag(old(snaps[..]), LastMarks(snaps.Length, n), LastN)
  {
    ghost var s := snaps[..];
    var stop := if n < snaps.Length then n else snaps.Length;
    for i := 0 to stop
      invariant forall k :: 0 <= k < i ==> snaps[k] == s[k].(keepReason := s[k].keepReason + [LastN])
      invariant forall k :: i <= k < snaps.Length ==> snaps[k] == s[k]
    {
      snaps[i] := snaps[i].(keepReason := snaps[i].keepReason + [LastN]);
    }
  }

  // ---------------------------------------------------------------------
  // Calendar rules

  /**
   * The snapshots a calendar rule keeps, walking `s` with `cnt` tags left
   * and `last` the bucket of the snapshot before `s[0]`. Every visited
   * snapshot is rounded (a failure ends the walk with an error); one whose
   * bucket differs from the previous snapshot's is tagged; the walk stops
   * after the tag that uses up the count.
   */
  function CalendarMarks(s: seq<Snapshot>, unit: Reason, cnt: nat, last: Option<Time>, round: Round)
    : (r: Result<seq<bool>, Error>)
    requires cnt >= 1
    ensures r.Ok? ==> |r.value| == |s|
    ensures r.Err? ==> r.error.RoundFailed? && r.error.unit == unit
    decreases |s|
  {
    if s == [] then Ok([])
    else
      match round(s[0].time)
      case None => Err(RoundFailed(unit, s[0].time))
      case Some(k) =>
        if last == Some(k) then
          Prepend([false], CalendarMarks(s[1..], unit, cnt, Some(k), round))
        else if cnt == 1 then
          Ok([true] + seq(|s| - 1, _ => false))
        else
          Prepend([true], CalendarMarks(s[1..], unit, cnt - 1, Some(k), round))
  }

  /** The walk looks only at the snapshots' times: lists with equal times get equal marks. */
  lemma {:induction false} MarksTimesOnly(s: seq<Snapshot>, t: seq<Snapshot>, unit: Reason, cnt: nat,
                                          last: Option<Time>, round: Round)
    requires cnt >= 1 && |s| == |t|
    requires forall i :: 0 <= i < |s| ==> s[i].time == t[i].time
    ensures CalendarMarks(s, unit, cnt, last, round) == CalendarMarks(t, unit, cnt, last, round)
    decreases |s|
  {
    if s != [] {
      assert s[0].time == t[0].time;
      forall i | 0 <= i < |s| - 1 ensures s[1..][i].time == t[1..][i].time {
        assert s[1..][i] == s[i + 1] && t[1..][i] == t[i + 1];
      }
      match round(s[0].time) {
        case None =>
        case Some(k) =>
          if last != Some(k) && cnt == 1 {
          } else {
            var cnt' := if last == Some(k) then cnt else cnt - 1;
            MarksTimesOnly(s[1..], t[1..], unit, cnt', Some(k), round);
          }
      }
    }
  }

  /** The bucket of the snapshot before position `j`. */
  function PrevBucket(s: seq<Snapshot>, last: Option<Time>, round: Round, j: int): Option<Time>
    requires 0 <= j < |s|
  {
    if j == 0 then last else round(s[j - 1].time)
  }

  /**
   * The calendar walk, stated position by position: a snapshot is tagged
   * iff fewer than `cnt` tags were made before it, it rounds, and its bucket
   * differs from the previous snapshot's. Every snapshot visited (fewer than
   * `cnt` tags before it) rounds successfully. Stated for position `j`.
   */
  lemma {:induction false} CalendarMarksAt(s: seq<Snapshot>, unit: Reason, cnt: nat, last: Option<Time>, round: Round, j: int)
    requires cnt >= 1 && 0 <= j < |s|
    requires CalendarMarks(s, unit, cnt, last, round).Ok?
    ensures var m := CalendarMarks(s, unit, cnt, last, round).value;
      && (CountTrue(m[..j]) < cnt ==> round(s[j].time).Some?)
      && (m[j] <==> CountTrue(m[..j]) < cnt && round(s[j].time).Some?
                    && PrevBucket(s, last, round, j) != round(s[j].time))
    decreases j
  {
    var m := CalendarMarks(s, unit, cnt, last, round).value;
    var k := round(s[0].time).value;
    if j == 0 {
      assert m[..0] == [];
      return;
    }
    if last != Some(k) && cnt == 1 {
      assert m[..j] == [true] + m[1..j];
      CountTrueAppend([true], m[1..j]);
      return;
    }
    var cnt' := if last == Some(k) then cnt else cnt - 1;
    CalendarMarksAt(s[1..], unit, cnt', Some(k), round, j - 1);
    var m' := CalendarMarks(s[1..], unit, cnt', Some(k), round).value;
    assert m == [m[0]] + m';
    assert m[..j] == [m[0]] + m'[..j - 1];
    CountTrueAppend([m[0]], m'[..j - 1]);
    assert s[j] == s[1..][j - 1];
  }

  /** A calendar rule keeps at most `n` snapshots. */
  lemma {:induction false} CalendarKeepsAtMost(s: seq<Snapshot>, unit: Reason, cnt: nat, last: Option<Time>, round: Round)
    requires cnt >= 1
    requires CalendarMarks(s, unit, cnt, last, round).Ok?
    ensures CountTrue(CalendarMarks(s, unit, cnt, last, round).value) <= cnt
    decreases |s|
  {
    if s != [] {
      var m := CalendarMarks(s, unit, cnt, last, round).value;
      var k := round(s[0].time).value;
      assert m[1..] == CalendarMarks(s, unit, cnt, last, round).value[1..];
      if last == Some(k) {
        CalendarKeepsAtMost(s[1..], unit, cnt, Some(k), round);
      } else if cnt == 1 {
        FalsesCountZero(|s| - 1);
      } else {
        CalendarKeepsAtMost(s[1..], unit, cnt - 1, Some(k), round);
      }
    }
  }

  lemma {:induction false} FalsesCountZero(n: nat)
    ensures CountTrue(seq(n, _ => false)) == 0
  {
    if n > 0 {
      assert seq(n, _ => false)[1..] == seq(n - 1, _ => false);
      FalsesCountZero(n - 1);
    }
  }

  /** A calendar rule always keeps the latest snapshot. */
  lemma CalendarKeepsFirst(s: seq<Snapshot>, unit: Reason, n: nat, round: Round)
    requires n >= 1 && |s| > 0
    requires CalendarMarks(s, unit, n, None, round).Ok?
    ensures CalendarMarks(s, unit, n, None, round).value[0]
  {
  }

  /** Once `n` snapshots are tagged, the walk leaves the rest untouched. */
  lemma CalendarStopsAfterCount(s: seq<Snapshot>, unit: Reason, n: nat, round: Round, j: int)
    requires n >= 1 && 0 <= j < |s|
    requires CalendarMarks(s, unit, n, None, round).Ok?
    requires CountTrue(CalendarMarks(s, unit, n, None, round).value[..j]) >= n
    ensures !CalendarMarks(s, unit, n, None, round).value[j]
  {
    CalendarMarksAt(s, unit, n, None, round, j);
  }

  /**
   * The walk fails only on an instant that does not round, and only on a
   * snapshot it visits: the walk over the snapshots before it succeeds with
   * fewer than `cnt` tags. So it succeeds whenever every visited snapshot
   * rounds, in particular when every instant rounds.
   */
  lemma {:induction false} CalendarFailsOnlyOnRoundFailure(s: seq<Snapshot>, unit: Reason, cnt: nat, last: Option<Time>, round: Round)
    requires cnt >= 1
    ensures CalendarMarks(s, unit, cnt, last, round).Err? ==>
      exists j :: (0 <= j < |s| && round(s[j].time).None?
                   && CalendarMarks(s, unit, cnt, last, round).error == RoundFailed(unit, s[j].time)
                   && CalendarMarks(s[..j], unit, cnt, last, round).Ok?
                   && CountTrue(CalendarMarks(s[..j], unit, cnt, last, round).value) < cnt)
    ensures (forall j :: 0 <= j < |s| ==> round(s[j].time).Some?) ==> CalendarMarks(s, unit, cnt, last, round).Ok?
    decreases |s|
  {
    if s != [] && round(s[0].time).None? {
      assert s[..0] == [];
    }
    if s != [] && round(s[0].time).Some? {
      var k := round(s[0].time).value;
      var cnt' := if last == Some(k) then cnt else cnt - 1;
      if cnt' >= 1 {
        CalendarFailsOnlyOnRoundFailure(s[1..], unit, cnt', Some(k), round);
        if CalendarMarks(s, unit, cnt, last, round).Err? {
          var j :| (0 <= j < |s[1..]| && round(s[1..][j].time).None?
                    && CalendarMarks(s[1..], unit, cnt', Some(k), round).error == RoundFailed(unit, s[1..][j].time)
                    && CalendarMarks(s[1..][..j], unit, cnt', Some(k), round).Ok?
                    && CountTrue(CalendarMarks(s[1..][..j], unit, cnt', Some(k), round).value) < cnt');
          assert s[1..][j] == s[j + 1];
          var before := s[..j + 1];
          assert before[0] == s[0] && before[1..] == s[1..][..j];
          var v' := CalendarMarks(s[1..][..j], unit, cnt', Some(k), round).value;
          var b := last != Some(k);
          assert CalendarMarks(before, unit, cnt, last, round) == Ok([b] + v');
          assert ([b] + v')[1..] == v';
        }
        forall j | 0 <= j < |s| - 1 ensures s[1..][j] == s[j + 1] { }
      }
    }
  }

  /**
   * The `break` after the tag that uses up the count: once a walk over `s`
   * has made all `cnt` tags, whatever follows is neither rounded nor
   * tagged, so a rounding failure there cannot fail the walk.
   */
  lemma {:induction false} CalendarIgnoresAfterCount(s: seq<Snapshot>, t: seq<Snapshot>, unit: Reason, cnt: nat,
                                                     last: Option<Time>, round: Round)
    requires cnt >= 1
    requires CalendarMarks(s, unit, cnt, last, round).Ok?
    requires CountTrue(CalendarMarks(s, unit, cnt, last, round).value) == cnt
    ensures CalendarMarks(s + t, unit, cnt, last, round)
         == Ok(CalendarMarks(s, unit, cnt, last, round).value + seq(|t|, _ => false))
    decreases |s|
  {
    var m := CalendarMarks(s, unit, cnt, last, round).value;
    if s == [] {
      assert false;
    }
    var k := round(s[0].time).value;
    assert (s + t)[0] == s[0] && (s + t)[1..] == s[1..] + t;
    assert m[1..] == CalendarMarks(s, unit, cnt, last, round).value[1..];
    if last == Some(k) {
      CalendarIgnoresAfterCount(s[1..], t, unit, cnt, Some(k), round);
      assert m == [false] + m[1..];
      assert [false] + (m[1..] + seq(|t|, _ => false)) == m + seq(|t|, _ => false);
    } else if cnt == 1 {
      assert [true] + seq(|s + t| - 1, _ => false) == m + seq(|t|, _ => false);
    } else {
      CalendarIgnoresAfterCount(s[1..], t, unit, cnt - 1, Some(k), round);
      assert m == [true] + m[1..];
      assert [true] + (m[1..] + seq(|t|, _ => false)) == m + seq(|t|, _ => false);
    }
  }

  /** A rounding that never maps a later instant to an earlier bucket. */
  ghost predicate Monotone(round: Round)
  {
    forall t1, t2 :: t1 <= t2 && round(t1).Some? && round(t2).Some? ==> round(t1).value <= round(t2).value
  }

  /**
   * On a latest-first list with a monotone rounding, a calendar rule keeps
   * at most one snapshot per bucket, and it is the latest one of its bucket.
   */
  lemma CalendarOnePerBucket(s: seq<Snapshot>, unit: Reason, n: nat, round: Round, i: int, j: int)
    requires n >= 1 && SortedDesc(s) && Monotone(round)
    requires 0 <= i < j < |s|
    requires CalendarMarks(s, unit, n, None, round).Ok?
    requires CalendarMarks(s, unit, n, None, round).value[j]
    ensures round(s[i].time).Some? && round(s[i].time) != round(s[j].time)
  {
    var m := CalendarMarks(s, unit, n, None, round).value;
    CalendarMarksAt(s, unit, n, None, round, j);
    // Every snapshot up to j was visited, so each of them rounds.
    forall k | 0 <= k <= j ensures round(s[k].time).Some? {
      assert m[..j] == m[..k] + m[k..j];
      CountTrueAppend(m[..k], m[k..j]);
      CalendarMarksAt(s, unit, n, None, round, k);
    }
    assert round(s[j - 1].time) != round(s[j].time);
    assert round(s[i].time).value >= round(s[j - 1].time).value >= round(s[j].time).value;
  }

  /** One step of the calendar walk at position `i`, unfolded. */
  lemma CalendarStep(s: seq<Snapshot>, i: int, unit: Reason, cnt: nat, last: Option<Time>, round: Round)
    requires cnt >= 1 && 0 <= i < |s|
    ensures round(s[i].time).None? ==> CalendarMarks(s[i..], unit, cnt, last, round) == Err(RoundFailed(unit, s[i].time))
    ensures round(s[i].time).Some? && last == round(s[i].time) ==>
      CalendarMarks(s[i..], unit, cnt, last, round) == Prepend([false], CalendarMarks(s[i + 1..], unit, cnt, last, round))
    ensures round(s[i].time).Some? && last != round(s[i].time) && cnt == 1 ==>
      CalendarMarks(s[i..], unit, cnt, last, round) == Ok([true] + seq(|s| - i - 1, _ => false))
    ensures round(s[i].time).Some? && last != round(s[i].time) && cnt > 1 ==>
      CalendarMarks(s[i..], unit, cnt, last, round)
        == Prepend([true], CalendarMarks(s[i + 1..], unit, cnt - 1, round(s[i].time), round))
  {
    assert s[i..][1..] == s[i + 1..];
  }

  /** The `keep_hourly` / `keep_daily` / `keep_weekly` / `keep_yearly` walk. */
  method TagCalendar(snaps: array<Snapshot>, unit: Reason, n: nat, round: Round) returns (r: Result<(), Error>)
    requires n >= 1
    modifies snaps
    ensures var spec := CalendarMarks(old(snaps[..]), unit, n, None, round);
      && (r.Err? <==> spec.Err?)
      && (r.Err? ==> r.error == spec.error)
      && (r.Ok? ==> snaps[..] == AddTag(old(snaps[..]), spec.value, unit))
  {
    ghost var s := snaps[..];
    ghost var spec := CalendarMarks(s, unit, n, None, round);
    ghost var done: seq<bool> := [];
    WalkStarts(s, unit, n, round);
    var cnt := n;
    var last: Option<Time> := None;
    var i := 0;
    while i < snaps.Length
      invariant 0 <= i <= snaps.Length && |done| == i
      invariant 1 <= cnt <= n
      invariant spec == Prepend(done, CalendarMarks(s[i..], unit, cnt, last, round))
      invariant WalkedPrefix(snaps[..], s, done, unit)
    {
      var rounded := round(snaps[i].time);
      if rounded.None? {
        WalkFails(s, i, unit, cnt, last, round, spec, done);
        return Err(RoundFailed(unit, snaps[i].time));
      }
      var previous := last;
      last := rounded;
      if previous == rounded {
        WalkSkips(s, i, unit, cnt, last, round, spec, done);
        WalkedStep(snaps[..], s, done, unit, false);
        done := done + [false];
        i := i + 1;
        continue;
      }
      WalkedStep(snaps[..], s, done, unit, true);
      AppendLabel(snaps, i, unit);
      if cnt == 1 {
        WalkStops(s, snaps[..], i, unit, previous, round, spec, done);
        return Ok(());
      }
      WalkTags(s, i, unit, cnt, previous, round, spec, done);
      done := done + [true];
      cnt := cnt - 1;
      i := i + 1;
    }
    WalkEnds(s, snaps[..], unit, cnt, last, round, spec, done);
    return Ok(());
  }

  /** Appends `unit` to the keep reason of `snaps[i]`, in place. */
  method AppendLabel(snaps: array<Snapshot>, i: int, unit: Reason)
    requires 0 <= i < snaps.Length
    modifies snaps
    ensures snaps[..] == old(snaps[..])[i := old(snaps[i]).(keepReason := old(snaps[i]).keepReason + [unit])]
  {
    snaps[i] := snaps[i].(keepReason := snaps[i].keepReason + [unit]);
  }

  /** Before the walk, nothing is decided and the whole list is ahead. */
  lemma WalkStarts(s: seq<Snapshot>, unit: Reason, n: nat, round: Round)
    requires n >= 1
    ensures CalendarMarks(s, unit, n, None, round) == Prepend([], CalendarMarks(s[0..], unit, n, None, round))
  {
    assert s[0..] == s;
    match CalendarMarks(s, unit, n, None, round) {
      case Ok(m) => assert [] + m == m;
      case Err(_) =>
    }
  }

  /** The tag that uses up the count ends the walk, leaving the array as the specification says. */
  lemma WalkStops(s: seq<Snapshot>, a: seq<Snapshot>, i: int, unit: Reason, last: Option<Time>, round: Round,
                  spec: Result<seq<bool>, Error>, done: seq<bool>)
    requires 0 <= i < |s| && |done| == i
    requires spec == Prepend(done, CalendarMarks(s[i..], unit, 1, last, round))
    requires round(s[i].time).Some? && last != round(s[i].time)
    requires WalkedPrefix(a, s, done + [true], unit)
    ensures spec.Ok? && |spec.value| == |s| && a == AddTag(s, spec.value, unit)
  {
    CalendarStep(s, i, unit, 1, last, round);
    PrependPrepend<bool, Error>(done, [true], Ok(seq(|s| - i - 1, _ => false)));
    TagCalendarStopped(s, a, spec, done + [true], unit);
  }

  /** A walk that visited every snapshot leaves the array as the specification says. */
  lemma WalkEnds(s: seq<Snapshot>, a: seq<Snapshot>, unit: Reason, cnt: nat, last: Option<Time>, round: Round,
                 spec: Result<seq<bool>, Error>, done: seq<bool>)
    requires cnt >= 1 && |done| == |s|
    requires spec == Prepend(done, CalendarMarks(s[|s|..], unit, cnt, last, round))
    requires WalkedPrefix(a, s, done, unit)
    ensures spec.Ok? && |spec.value| == |s| && a == AddTag(s, spec.value, unit)
  {
    assert s[|s|..] == [];
    assert seq(0, _ => false) == [];
    TagCalendarStopped(s, a, spec, done, unit);
  }

  /** The walk fails at position `i` when that snapshot's time does not round. */
  lemma WalkFails(s: seq<Snapshot>, i: int, unit: Reason, cnt: nat, last: Option<Time>, round: Round,
                  spec: Result<seq<bool>, Error>, done: seq<bool>)
    requires cnt >= 1 && 0 <= i < |s|
    requires spec == Prepend(done, CalendarMarks(s[i..], unit, cnt, last, round))
    requires round(s[i].time).None?
    ensures spec == Err(RoundFailed(unit, s[i].time))
  {
    CalendarStep(s, i, unit, cnt, last, round);
  }

  /** A snapshot in the bucket of the one before it is passed over. */
  lemma WalkSkips(s: seq<Snapshot>, i: int, unit: Reason, cnt: nat, last: Option<Time>, round: Round,
                  spec: Result<seq<bool>, Error>, done: seq<bool>)
    requires cnt >= 1 && 0 <= i < |s|
    requires spec == Prepend(done, CalendarMarks(s[i..], unit, cnt, last, round))
    requires round(s[i].time).Some? && last == round(s[i].time)
    ensures spec == Prepend(done + [false], CalendarMarks(s[i + 1..], unit, cnt, last, round))
  {
    CalendarStep(s, i, unit, cnt, last, round);
    PrependPrepend(done, [false], CalendarMarks(s[i + 1..], unit, cnt, last, round));
  }

  /** A snapshot opening a new bucket is tagged, and the walk goes on with one tag fewer. */
  lemma WalkTags(s: seq<Snapshot>, i: int, unit: Reason, cnt: nat, last: Option<Time>, round: Round,
                 spec: Result<seq<bool>, Error>, done: seq<bool>)
    requires cnt > 1 && 0 <= i < |s|
    requires spec == Prepend(done, CalendarMarks(s[i..], unit, cnt, last, round))
    requires round(s[i].time).Some? && last != round(s[i].time)
    ensures spec == Prepend(done + [true], CalendarMarks(s[i + 1..], unit, cnt - 1, round(s[i].time), round))
  {
    CalendarStep(s, i, unit, cnt, last, round);
    PrependPrepend(done, [true], CalendarMarks(s[i + 1..], unit, cnt - 1, round(s[i].time), round));
  }

  /**
   * The array as the walk leaves it after deciding the first `|done|`
   * snapshots: those marked in `done` carry the label, every other one is
   * as it was.
   */
  ghost predicate WalkedPrefix(a: seq<Snapshot>, s: seq<Snapshot>, done: seq<bool>, unit: Reason)
  {
    && |a| == |s| && |done| <= |s|
    && (forall k :: 0 <= k < |done| ==> a[k] == if done[k] then s[k].(keepReason := s[k].keepReason + [unit]) else s[k])
    && (forall k :: |done| <= k < |s| ==> a[k] == s[k])
  }

  /** Deciding one more snapshot: tagging it in place when `b`, leaving it otherwise. */
  lemma WalkedStep(a: seq<Snapshot>, s: seq<Snapshot>, done: seq<bool>, unit: Reason, b: bool)
    requires WalkedPrefix(a, s, done, unit) && |done| < |s|
    ensures var i := |done|;
      WalkedPrefix(if b then a[i := a[i].(keepReason := a[i].keepReason + [unit])] else a, s, done + [b], unit)
  {
  }

  /**
   * The array when the walk ends: every snapshot after the decided ones is
   * unmarked in `spec` (none are left, or the count ran out).
   */
  lemma TagCalendarStopped(s: seq<Snapshot>, a: seq<Snapshot>, spec: Result<seq<bool>, Error>,
                           done: seq<bool>, unit: Reason)
    requires WalkedPrefix(a, s, done, unit)
    requires spec == Prepend(done, Ok(seq(|s| - |done|, _ => false)))
    ensures spec.Ok? && |spec.value| == |s| && a == AddTag(s, spec.value, unit)
  {
    var m := spec.value;
    assert forall k :: 0 <= k < |done| ==> m[k] == done[k];
    assert forall k :: |done| <= k < |s| ==> !m[k];
  }
}
