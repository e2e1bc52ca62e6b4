/** `RetentionPolicy` of `src/main.rs` and the checks `run_prune` makes of it first. */
module Policy {
  import opened Results
  import opened Records

  /** `NonZero<u16>`, the type of every count option. */
  type Count = n: int | 1 <= n <= 0xFFFF witness 1

  /**
   * A `jiff::Span`, reduced to what the model needs of it: its sign
   * (positive, zero or negative). Subtracting it from the clock is done
   * outside the model; `run_prune` receives the resulting instant.
   */
  type Span = int

  datatype RetentionPolicy = RetentionPolicy(
    keepLast: Option<Count>,
    keepWithin: Option<Span>,
    keepHourly: Option<Count>,
    keepDaily: Option<Count>,
    keepWeekly: Option<Count>,
    keepMonthly: Option<Count>,
    keepYearly: Option<Count>)

  /** The seven options a user may give. */
  datatype Rule = KeepLast | KeepWithin | KeepHourly | KeepDaily | KeepWeekly | KeepMonthly | KeepYearly

  /** Whether option `rule` is given in `p`. */
  predicate Given(p: RetentionPolicy, rule: Rule)
  {
    match rule
    case KeepLast => p.keepLast.Some?
    case KeepWithin => p.keepWithin.Some?
    case KeepHourly => p.keepHourly.Some?
    case KeepDaily => p.keepDaily.Some?
    case KeepWeekly => p.keepWeekly.Some?
    case KeepMonthly => p.keepMonthly.Some?
    case KeepYearly => p.keepYearly.Some?
  }

  /** `RetentionPolicy::is_valid`: any one of the seven options on its own makes a policy valid. */
  predicate IsValid(p: RetentionPolicy): (valid: bool)
    ensures forall rule :: Given(p, rule) ==> valid
  {
    || p.keepLast.Some?
    || p.keepWithin.Some?
    || p.keepHourly.Some?
    || p.keepDaily.Some?
    || p.keepWeekly.Some?
    || p.keepMonthly.Some?
    || p.keepYearly.Some?
  }

  /** A policy is valid exactly when at least one of the seven options is given. */
  lemma IsValidIffSomeRuleGiven(p: RetentionPolicy)
    ensures IsValid(p) <==> exists rule :: Given(p, rule)
  {
    if IsValid(p) {
      var rule :=
        if p.keepLast.Some? then KeepLast
        else if p.keepWithin.Some? then KeepWithin
        else if p.keepHourly.Some? then KeepHourly
        else if p.keepDaily.Some? then KeepDaily
        else if p.keepWeekly.Some? then KeepWeekly
        else if p.keepMonthly.Some? then KeepMonthly
        else KeepYearly;
      assert Given(p, rule);
    }
  }

  /**
   * The two checks at the start of `run_prune`: some rule must be given,
   * and a `keep_within` span must be positive. Both are made before the
   * target directory is opened.
   */
  function Validate(p: RetentionPolicy): (r: Result<(), Error>)
    ensures r == Err(NoPolicy) <==> !exists rule :: Given(p, rule)
    ensures r == Err(NonPositiveWithin) <==>
      (exists rule :: Given(p, rule)) && p.keepWithin.Some? && p.keepWithin.value <= 0
    ensures r.Ok? || r == Err(NoPolicy) || r == Err(NonPositiveWithin)
  {
    IsValidIffSomeRuleGiven(p);
    if !IsValid(p) then Err(NoPolicy)
    else if p.keepWithin.Some? && !(p.keepWithin.value > 0) then Err(NonPositiveWithin)
    else Ok(())
  }

  /**
   * The options whose rule always tags the latest snapshot: `keep_last` and
   * the four calendar rules `run_prune` applies. `keep_within` tags nothing
   * when every snapshot is older than the window, and `keep_monthly` is
   * never applied.
   */
  predicate KeepsLatest(p: RetentionPolicy)
  {
    p.keepLast.Some? || p.keepHourly.Some? || p.keepDaily.Some? || p.keepWeekly.Some? || p.keepYearly.Some?
  }
}
