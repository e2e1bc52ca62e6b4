/**
 * `run_prune` of `src/main.rs`: validate the policy, list the snapshots,
 * tag them rule by rule, and split them into the kept and the deleted.
 * The deletion loop itself (one `snap_destroy_v2` per name, stopping at the
 * first kernel error) is outside the model; the plan ends with the list of
 * names it would hand to that loop.
 */
module Prune {
  import opened Results
  import opened Records
  import opened Policy
  import opened Inventory
  import opened Retention

  /** The local-zone rounding of each calendar unit `run_prune` applies. */
  datatype Calendar = Calendar(hourly: Round, daily: Round, weekly: Round, yearly: Round)

  /** One entry of `calendar_policies`: label, count if given, rounding. */
  datatype CalendarRule = CalendarRule(unit: Reason, count: Option<Count>, round: Round)

  /**
   * `calendar_policies`, in its order. `keep_monthly` has no entry, so it
   * is accepted by validation and then never applied.
   */
  function CalendarRules(p: RetentionPolicy, cal: Calendar): (rules: seq<CalendarRule>)
    ensures |rules| == 4
    ensures rules[0].unit == Hourly && rules[1].unit == Daily && rules[2].unit == Weekly && rules[3].unit == Yearly
    ensures rules[0].count == p.keepHourly && rules[1].count == p.keepDaily
    ensures rules[2].count == p.keepWeekly && rules[3].count == p.keepYearly
    ensures forall i :: 0 <= i < |rules| ==> rules[i].round == RoundFor(cal, rules[i].unit)
    ensures forall i :: 0 <= i < |rules| ==> rules[i].unit in {Hourly, Daily, Weekly, Yearly}
  {
    [ CalendarRule(Hourly, p.keepHourly, cal.hourly),
      CalendarRule(Daily, p.keepDaily, cal.daily),
      CalendarRule(Weekly, p.keepWeekly, cal.weekly),
      CalendarRule(Yearly, p.keepYearly, cal.yearly) ]
  }

  /** The rounding used for the calendar label `unit`. */
  function RoundFor(cal: Calendar, unit: Reason): Round
  {
    match unit
    case Hourly => cal.hourly
    case Daily => cal.daily
    case Weekly => cal.weekly
    case Yearly => cal.yearly
    case _ => _ => None
  }

  /** The `keep_within` pass, when the option is given. */
  function WithinStage(p: RetentionPolicy, s: seq<Snapshot>, keepSince: Time): seq<Snapshot>
  {
    if p.keepWithin.Some? then AddTag(s, WithinMarks(s, keepSince), LastWithin) else s
  }

  /** The `keep_last` pass, when the option is given. */
  function LastStage(p: RetentionPolicy, s: seq<Snapshot>): seq<Snapshot>
  {
    if p.keepLast.Some? then AddTag(s, LastMarks(|s|, p.keepLast.value), LastN) else s
  }

  /**
   * The calendar passes in order. A rule without a count is skipped; a
   * rounding failure in any pass fails the whole plan.
   */
  function ApplyCalendar(rules: seq<CalendarRule>, s: seq<Snapshot>): (r: Result<seq<Snapshot>, Error>)
    ensures r.Ok? ==> |r.value| == |s|
    ensures r.Ok? ==> forall i :: 0 <= i < |s| ==>
      && r.value[i].fileName == s[i].fileName && r.value[i].time == s[i].time
      && s[i].keepReason <= r.value[i].keepReason
    decreases |rules|
  {
    if rules == [] then Ok(s)
    else if rules[0].count.None? then ApplyCalendar(rules[1..], s)
    else
      match CalendarMarks(s, rules[0].unit, rules[0].count.value, None, rules[0].round)
      case Err(e) => Err(e)
      case Ok(m) => ApplyCalendar(rules[1..], AddTag(s, m, rules[0].unit))
  }

  /** Every rule of the policy applied to the listed snapshots. */
  function PlanTags(p: RetentionPolicy, s: seq<Snapshot>, keepSince: Time, cal: Calendar): Result<seq<Snapshot>, Error>
  {
    ApplyCalendar(CalendarRules(p, cal), LastStage(p, WithinStage(p, s, keepSince)))
  }

  /** Calendar rule `rule`, walked over `s`, keeps the snapshot at `i`. */
  ghost predicate MarkedBy(rule: CalendarRule, s: seq<Snapshot>, i: int)
    requires 0 <= i < |s|
  {
    && rule.count.Some?
    && CalendarMarks(s, rule.unit, rule.count.value, None, rule.round).Ok?
    && CalendarMarks(s, rule.unit, rule.count.value, None, rule.round).value[i]
  }

  /** Whether a calendar rule keeps a snapshot does not depend on the labels earlier passes added. */
  lemma MarkedBySameTimes(rule: CalendarRule, s: seq<Snapshot>, t: seq<Snapshot>, i: int)
    requires |s| == |t| && 0 <= i < |s|
    requires forall j :: 0 <= j < |s| ==> s[j].time == t[j].time
    ensures MarkedBy(rule, s, i) <==> MarkedBy(rule, t, i)
  {
    if rule.count.Some? {
      MarksTimesOnly(s, t, rule.unit, rule.count.value, None, rule.round);
    }
  }

  /**
   * After the calendar passes, a snapshot is kept iff it was kept before
   * or some rule with a count, walked over the list, keeps it.
   */
  lemma {:induction false} ApplyCalendarKeptIff(rules: seq<CalendarRule>, s: seq<Snapshot>, i: int)
    requires ApplyCalendar(rules, s).Ok? && 0 <= i < |s|
    ensures ApplyCalendar(rules, s).value[i].keepReason != [] <==>
      s[i].keepReason != [] || exists k :: 0 <= k < |rules| && MarkedBy(rules[k], s, i)
    decreases |rules|
  {
    if rules != [] {
      var s' := if rules[0].count.None? then s
                else AddTag(s, CalendarMarks(s, rules[0].unit, rules[0].count.value, None, rules[0].round).value, rules[0].unit);
      assert ApplyCalendar(rules, s) == ApplyCalendar(rules[1..], s');
      ApplyCalendarKeptIff(rules[1..], s', i);
      assert s'[i].keepReason != [] <==> s[i].keepReason != [] || MarkedBy(rules[0], s, i);
      forall k | 0 <= k < |rules| - 1 ensures MarkedBy(rules[1..][k], s', i) <==> MarkedBy(rules[k + 1], s, i) {
        MarkedBySameTimes(rules[k + 1], s', s, i);
      }
      if exists k :: 0 <= k < |rules| && MarkedBy(rules[k], s, i) {
        var k :| 0 <= k < |rules| && MarkedBy(rules[k], s, i);
        if k > 0 {
          assert MarkedBy(rules[1..][k - 1], s', i);
        }
      }
    }
  }

  /**
   * A snapshot survives the whole plan iff it was already kept, or
   * `keep_within` keeps it, or `keep_last` keeps it, or one of the applied
   * calendar rules keeps it, each rule judged on the listed times.
   */
  lemma PlanKeptIff(p: RetentionPolicy, s: seq<Snapshot>, keepSince: Time, cal: Calendar, i: int)
    requires PlanTags(p, s, keepSince, cal).Ok? && 0 <= i < |s|
    ensures PlanTags(p, s, keepSince, cal).value[i].keepReason != [] <==>
      || s[i].keepReason != []
      || (p.keepWithin.Some? && WithinMarks(s, keepSince)[i])
      || (p.keepLast.Some? && LastMarks(|s|, p.keepLast.value)[i])
      || exists k :: 0 <= k < 4 && MarkedBy(CalendarRules(p, cal)[k], s, i)
  {
    var rules := CalendarRules(p, cal);
    var s2 := LastStage(p, WithinStage(p, s, keepSince));
    ApplyCalendarKeptIff(rules, s2, i);
    forall k | 0 <= k < 4 ensures MarkedBy(rules[k], s2, i) <==> MarkedBy(rules[k], s, i) {
      MarkedBySameTimes(rules[k], s2, s, i);
    }
  }

  /** The names of the snapshots no rule tagged, in list order. */
  function DeleteNames(s: seq<Snapshot>): seq<Name>
  {
    if s == [] then []
    else DeleteNames(s[..|s| - 1]) + (if s[|s| - 1].keepReason == [] then [s[|s| - 1].fileName] else [])
  }

  /** The names of the snapshots some rule tagged, in list order. */
  function KeptNames(s: seq<Snapshot>): seq<Name>
  {
    if s == [] then []
    else KeptNames(s[..|s| - 1]) + (if s[|s| - 1].keepReason != [] then [s[|s| - 1].fileName] else [])
  }

  function Names(s: seq<Snapshot>): seq<Name>
  {
    if s == [] then [] else Names(s[..|s| - 1]) + [s[|s| - 1].fileName]
  }

  /** The kept and the deleted together are all the snapshots, each exactly once. */
  lemma {:induction false} DeletePartition(s: seq<Snapshot>)
    ensures multiset(DeleteNames(s)) + multiset(KeptNames(s)) == multiset(Names(s))
    ensures |DeleteNames(s)| + |KeptNames(s)| == |s|
  {
    if s != [] {
      DeletePartition(s[..|s| - 1]);
    }
  }

  /** A name is deleted iff it belongs to a snapshot with an empty keep reason. */
  lemma {:induction false} DeleteNamesExact(s: seq<Snapshot>, name: Name)
    ensures name in DeleteNames(s) <==> exists i :: 0 <= i < |s| && s[i].fileName == name && s[i].keepReason == []
  {
    if s != [] {
      var init := s[..|s| - 1];
      DeleteNamesExact(init, name);
      if name in DeleteNames(init) {
        var i :| 0 <= i < |init| && init[i].fileName == name && init[i].keepReason == [];
        assert s[i] == init[i];
      }
      if exists i :: 0 <= i < |s| && s[i].fileName == name && s[i].keepReason == [] {
        var i :| 0 <= i < |s| && s[i].fileName == name && s[i].keepReason == [];
        if i < |s| - 1 {
          assert init[i] == s[i];
        }
      }
    }
  }

  /** Fewer names are deleted than there are snapshots iff some snapshot is tagged. */
  lemma {:induction false} DeleteShorterIffSomeKept(s: seq<Snapshot>)
    ensures |DeleteNames(s)| <= |s|
    ensures |DeleteNames(s)| < |s| <==> exists i :: 0 <= i < |s| && s[i].keepReason != []
  {
    if s != [] {
      var init := s[..|s| - 1];
      DeleteShorterIffSomeKept(init);
      if exists i :: 0 <= i < |init| && init[i].keepReason != [] {
        var i :| 0 <= i < |init| && init[i].keepReason != [];
        assert s[i] == init[i];
      }
      if exists i :: 0 <= i < |s| && s[i].keepReason != [] {
        var i :| 0 <= i < |s| && s[i].keepReason != [];
        if i < |s| - 1 {
          assert init[i] == s[i];
        }
      }
    }
  }

  /** The loop that builds `to_delete`. */
  method CollectDeletes(snaps: array<Snapshot>) returns (toDelete: seq<Name>)
    ensures toDelete == DeleteNames(snaps[..])
  {
    toDelete := [];
    for i := 0 to snaps.Length
      invariant toDelete == DeleteNames(snaps[..i])
    {
      assert snaps[..i + 1][..i] == snaps[..i];
      if snaps[i].keepReason == [] {
        toDelete := toDelete + [snaps[i].fileName];
      }
    }
    assert snaps[..snaps.Length] == snaps[..];
  }

  /** What a prune run that does not fail ends with. */
  datatype PruneOutcome =
    | NoSnapshots                                    // nothing listed
    | DryRun(plan: seq<Snapshot>, toDelete: seq<Name>)  // plan reported, nothing destroyed
    | NothingToDo                                    // every snapshot kept
    | Destroy(toDelete: seq<Name>)                   // these are handed to the deletion loop, in order

  datatype PruneResult =
    | Failed(error: Error)
    | Panicked          // the internal check that one snapshot is kept failed
    | Done(outcome: PruneOutcome)

  /** The decision `run_prune` makes from an already validated policy and a listing. */
  function Decide(p: RetentionPolicy, listing: Result<seq<Snapshot>, Error>, keepSince: Time,
                  cal: Calendar, dryRun: bool): (r: PruneResult)
    ensures listing.Err? ==> r == Failed(listing.error)
    ensures r == Done(NoSnapshots) <==> listing == Ok([])
    ensures r == Panicked ==> listing.Ok? && listing.value != []
    ensures r.Done? && r.outcome.DryRun? ==> dryRun && |r.outcome.toDelete| < |r.outcome.plan|
    ensures r.Done? && r.outcome.Destroy? ==> !dryRun && r.outcome.toDelete != []
    ensures dryRun && r.Done? ==> r.outcome.NoSnapshots? || r.outcome.DryRun?
  {
    match listing
    case Err(e) => Failed(e)
    case Ok(snaps) =>
      if snaps == [] then Done(NoSnapshots)
      else
        match PlanTags(p, snaps, keepSince, cal)
        case Err(e) => Failed(e)
        case Ok(plan) =>
          var toDelete := DeleteNames(plan);
          if !(|toDelete| < |plan|) then Panicked
          else if dryRun then Done(DryRun(plan, toDelete))
          else if toDelete == [] then Done(NothingToDo)
          else Done(Destroy(toDelete))
  }

  /**
   * `run_prune` up to the deletion loop. An invalid policy fails before the
   * directory is read; otherwise the outcome is the decision for a listing
   * `list_snapshots` may return.
   */
  method RunPrune(p: RetentionPolicy, prefix: Name, items: seq<DirItem>, parse: Parser,
                  now: Time, keepSince: Time, cal: Calendar, dryRun: bool)
    returns (r: PruneResult)
    ensures Validate(p).Err? ==> r == Failed(Validate(p).error)
    ensures Validate(p).Ok? ==>
      exists listing :: IsListing(listing, items, prefix, now, parse) && r == Decide(p, listing, keepSince, cal, dryRun)
  {
    var valid := Validate(p);
    if valid.Err? {
      return Failed(valid.error);
    }
    var listing := ListSnapshots(items, prefix, now, parse);
    assert IsListing(listing, items, prefix, now, parse);
    if listing.Err? {
      return Failed(listing.error);
    }
    var snaps := listing.value;
    if |snaps| == 0 {
      return Done(NoSnapshots);
    }
    var a := new Snapshot[|snaps|](k requires 0 <= k < |snaps| => snaps[k]);
    assert a[..] == snaps;
    if p.keepWithin.Some? {
      TagWithin(a, keepSince);
    }
    assert a[..] == WithinStage(p, snaps, keepSince);
    if p.keepLast.Some? {
      TagLast(a, p.keepLast.value);
    }
    assert a[..] == LastStage(p, WithinStage(p, snaps, keepSince));
    var rules := CalendarRules(p, cal);
    for k := 0 to |rules|
      invariant PlanTags(p, snaps, keepSince, cal) == ApplyCalendar(rules[k..], a[..])
    {
      assert rules[k..][1..] == rules[k + 1..];
      var rule := rules[k];
      if rule.count.None? {
        continue;
      }
      var res := TagCalendar(a, rule.unit, rule.count.value, rule.round);
      if res.Err? {
        return Failed(res.error);
      }
    }
    assert rules[|rules|..] == [];
    var toDelete := CollectDeletes(a);
    if !(|toDelete| < a.Length) {
      return Panicked;
    }
    if dryRun {
      return Done(DryRun(a[..], toDelete));
    }
    if toDelete == [] {
      return Done(NothingToDo);
    }
    return Done(Destroy(toDelete));
  }

  // ---------------------------------------------------------------------
  // Properties of the plan

  /** A calendar pass with a count tags the latest snapshot, and later passes keep its tags. */
  lemma {:induction false} ApplyCalendarKeepsFirst(rules: seq<CalendarRule>, s: seq<Snapshot>)
    requires |s| > 0 && ApplyCalendar(rules, s).Ok?
    requires exists i :: 0 <= i < |rules| && rules[i].count.Some?
    ensures ApplyCalendar(rules, s).value[0].keepReason != []
    decreases |rules|
  {
    if rules[0].count.None? {
      var i :| 0 <= i < |rules| && rules[i].count.Some?;
      assert rules[1..][i - 1] == rules[i];
      ApplyCalendarKeepsFirst(rules[1..], s);
    } else {
      var m := CalendarMarks(s, rules[0].unit, rules[0].count.value, None, rules[0].round).value;
      CalendarKeepsFirst(s, rules[0].unit, rules[0].count.value, rules[0].round);
      var s' := AddTag(s, m, rules[0].unit);
      assert s'[0].keepReason != [];
    }
  }

  /**
   * With `keep_last` or one of the applied calendar rules, a successful plan
   * tags the latest snapshot.
   */
  lemma PlanKeepsLatest(p: RetentionPolicy, s: seq<Snapshot>, keepSince: Time, cal: Calendar)
    requires |s| > 0 && KeepsLatest(p)
    requires PlanTags(p, s, keepSince, cal).Ok?
    ensures PlanTags(p, s, keepSince, cal).value[0].keepReason != []
  {
    var rules := CalendarRules(p, cal);
    var s2 := LastStage(p, WithinStage(p, s, keepSince));
    if p.keepLast.Some? {
      assert s2[0].keepReason != [];
    } else {
      var i := if p.keepHourly.Some? then 0 else if p.keepDaily.Some? then 1 else if p.keepWeekly.Some? then 2 else 3;
      assert rules[i].count.Some?;
      ApplyCalendarKeepsFirst(rules, s2);
    }
  }

  /** A plan fails only when a calendar rounding fails on the time of a listed snapshot. */
  lemma {:induction false} ApplyCalendarFailsOnRound(rules: seq<CalendarRule>, s: seq<Snapshot>)
    requires forall i :: 0 <= i < |rules| ==> rules[i].unit in {Hourly, Daily, Weekly, Yearly}
    ensures ApplyCalendar(rules, s).Err? ==>
      var e := ApplyCalendar(rules, s).error;
      && e.RoundFailed?
      && exists i, j :: 0 <= i < |rules| && 0 <= j < |s| && rules[i].unit == e.unit
                     && e.time == s[j].time && rules[i].round(e.time).None?
    decreases |rules|
  {
    if rules != [] {
      var r0 := rules[0];
      if r0.count.None? {
        ApplyCalendarFailsOnRound(rules[1..], s);
        if ApplyCalendar(rules, s).Err? {
          var e := ApplyCalendar(rules, s).error;
          var i, j :| 0 <= i < |rules[1..]| && 0 <= j < |s| && rules[1..][i].unit == e.unit
                      && e.time == s[j].time && rules[1..][i].round(e.time).None?;
          assert rules[i + 1] == rules[1..][i];
        }
      } else {
        var cm := CalendarMarks(s, r0.unit, r0.count.value, None, r0.round);
        CalendarFailsOnlyOnRoundFailure(s, r0.unit, r0.count.value, None, r0.round);
        if cm.Ok? {
          var s' := AddTag(s, cm.value, r0.unit);
          ApplyCalendarFailsOnRound(rules[1..], s');
          if ApplyCalendar(rules, s).Err? {
            var e := ApplyCalendar(rules, s).error;
            var i, j :| 0 <= i < |rules[1..]| && 0 <= j < |s'| && rules[1..][i].unit == e.unit
                        && e.time == s'[j].time && rules[1..][i].round(e.time).None?;
            assert rules[i + 1] == rules[1..][i] && s'[j].time == s[j].time;
          }
        } else {
          var e := cm.error;
          var j :| 0 <= j < |s| && r0.round(s[j].time).None? && e == RoundFailed(r0.unit, s[j].time);
          assert rules[0].unit == e.unit;
        }
      }
    }
  }

  /**
   * A plan fails only with a calendar rounding failure, on the time of a
   * listed snapshot, under the rounding of the failing unit.
   */
  lemma PlanFailsOnlyOnRound(p: RetentionPolicy, s: seq<Snapshot>, keepSince: Time, cal: Calendar)
    ensures PlanTags(p, s, keepSince, cal).Err? ==>
      var e := PlanTags(p, s, keepSince, cal).error;
      && e.RoundFailed?
      && (exists j :: 0 <= j < |s| && e.time == s[j].time)
      && RoundFor(cal, e.unit)(e.time).None?
  {
    var rules := CalendarRules(p, cal);
    var s2 := LastStage(p, WithinStage(p, s, keepSince));
    ApplyCalendarFailsOnRound(rules, s2);
    if PlanTags(p, s, keepSince, cal).Err? {
      var e := PlanTags(p, s, keepSince, cal).error;
      var i, j :| 0 <= i < |rules| && 0 <= j < |s2| && rules[i].unit == e.unit
                  && e.time == s2[j].time && rules[i].round(e.time).None?;
      assert s2[j].time == s[j].time;
      assert rules[i].round == RoundFor(cal, e.unit);
    }
  }

  // ---------------------------------------------------------------------
  // Properties of the decision

  /**
   * A rounding failure ends the run with that error, before any deletion;
   * the deletion loop is reached only outside dry-run mode, with a
   * non-empty list that is exactly the untagged snapshots in list order,
   * and at least one snapshot kept.
   */
  lemma DestroyOnlyPlanned(p: RetentionPolicy, listing: Result<seq<Snapshot>, Error>, keepSince: Time,
                           cal: Calendar, dryRun: bool)
    ensures listing.Ok? && listing.value != [] && PlanTags(p, listing.value, keepSince, cal).Err? ==>
      Decide(p, listing, keepSince, cal, dryRun) == Failed(PlanTags(p, listing.value, keepSince, cal).error)
    ensures Decide(p, listing, keepSince, cal, dryRun).Done? && Decide(p, listing, keepSince, cal, dryRun).outcome.Destroy? ==>
      && !dryRun && listing.Ok?
      && PlanTags(p, listing.value, keepSince, cal).Ok?
      && var plan := PlanTags(p, listing.value, keepSince, cal).value;
         && Decide(p, listing, keepSince, cal, dryRun).outcome.toDelete == DeleteNames(plan)
         && DeleteNames(plan) != []
         && exists i :: 0 <= i < |plan| && plan[i].keepReason != []
  {
    if listing.Ok? && listing.value != [] && PlanTags(p, listing.value, keepSince, cal).Ok? {
      DeleteShorterIffSomeKept(PlanTags(p, listing.value, keepSince, cal).value);
    }
  }

  /** With `keep_last` or an applied calendar rule, the internal check never fails. */
  lemma NoPanicWhenLatestKept(p: RetentionPolicy, listing: Result<seq<Snapshot>, Error>, keepSince: Time,
                              cal: Calendar, dryRun: bool)
    requires KeepsLatest(p)
    ensures Decide(p, listing, keepSince, cal, dryRun) != Panicked
  {
    if listing.Ok? && listing.value != [] && PlanTags(p, listing.value, keepSince, cal).Ok? {
      var plan := PlanTags(p, listing.value, keepSince, cal).value;
      PlanKeepsLatest(p, listing.value, keepSince, cal);
      DeleteShorterIffSomeKept(plan);
    }
  }

  /** `keep_monthly` is accepted by validation but has no effect on the decision. */
  lemma MonthlyNeverApplied(p: RetentionPolicy, monthly: Option<Count>, listing: Result<seq<Snapshot>, Error>,
                            keepSince: Time, cal: Calendar, dryRun: bool)
    ensures Decide(p.(keepMonthly := monthly), listing, keepSince, cal, dryRun) == Decide(p, listing, keepSince, cal, dryRun)
  {
    assert CalendarRules(p.(keepMonthly := monthly), cal) == CalendarRules(p, cal);
  }

  /** Calendar passes without a count change nothing. */
  lemma {:induction false} ApplyCalendarNoCounts(rules: seq<CalendarRule>, s: seq<Snapshot>)
    requires forall i :: 0 <= i < |rules| ==> rules[i].count.None?
    ensures ApplyCalendar(rules, s) == Ok(s)
    decreases |rules|
  {
    if rules != [] {
      assert forall i :: 0 <= i < |rules[1..]| ==> rules[1..][i] == rules[i + 1];
      ApplyCalendarNoCounts(rules[1..], s);
    }
  }

  /** A snapshot list no rule tagged is deleted entirely. */
  lemma {:induction false} UntaggedAllDeleted(s: seq<Snapshot>)
    requires forall i :: 0 <= i < |s| ==> s[i].keepReason == []
    ensures |DeleteNames(s)| == |s|
  {
    if s != [] {
      UntaggedAllDeleted(s[..|s| - 1]);
    }
  }

  /** With `keep_monthly` as the only option, every non-empty listing trips the internal check. */
  lemma MonthlyAlonePanics(n: Count, listing: seq<Snapshot>, keepSince: Time, cal: Calendar, dryRun: bool)
    requires listing != []
    requires forall i :: 0 <= i < |listing| ==> listing[i].keepReason == []
    ensures var p := RetentionPolicy(None, None, None, None, None, Some(n), None);
      Validate(p).Ok? && Decide(p, Ok(listing), keepSince, cal, dryRun) == Panicked
  {
    var p := RetentionPolicy(None, None, None, None, None, Some(n), None);
    assert Given(p, KeepMonthly);
    ApplyCalendarNoCounts(CalendarRules(p, cal), listing);
    UntaggedAllDeleted(listing);
  }

  /**
   * With `keep_within` as the only option, a listing whose latest snapshot
   * is older than the window trips the internal check.
   */
  lemma WithinAloneMayPanic(span: Span, listing: seq<Snapshot>, keepSince: Time, cal: Calendar, dryRun: bool)
    requires span > 0 && listing != []
    requires forall i :: 0 <= i < |listing| ==> listing[i].keepReason == []
    requires listing[0].time < keepSince
    ensures var p := RetentionPolicy(None, Some(span), None, None, None, None, None);
      Validate(p).Ok? && Decide(p, Ok(listing), keepSince, cal, dryRun) == Panicked
  {
    var p := RetentionPolicy(None, Some(span), None, None, None, None, None);
    assert Given(p, KeepWithin);
    assert LeadingRun(listing, keepSince) == 0;
    var tagged := WithinStage(p, listing, keepSince);
    assert forall i :: 0 <= i < |tagged| ==> tagged[i].keepReason == [];
    ApplyCalendarNoCounts(CalendarRules(p, cal), tagged);
    UntaggedAllDeleted(tagged);
  }
}
