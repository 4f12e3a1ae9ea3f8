/**
 * The engine's rating records (package `engine`) as the conversions see
 * them. Every nested record is a value: the `New*` constructors dereference
 * every pointer they are given, so a nil one is outside what they accept.
 * The one exception is the account summary of a call cost, which Convert
 * checks for nil.
 */
module Engine {
  import opened Base

  datatype BalanceSummary = BalanceSummary(
    uuid: string, id: string, balanceType: string, value: float64, disabled: bool)

  /** A nil BalanceSummaries slice is `None`. */
  datatype AccountSummary = AccountSummary(
    tenant: string, id: string, balanceSummaries: Option<seq<BalanceSummary>>,
    allowNegative: bool, disabled: bool)

  datatype Rate = Rate(
    groupIntervalStart: Duration, value: float64, rateIncrement: Duration, rateUnit: Duration)

  datatype RIRate = RIRate(
    connectFee: float64, roundingMethod: string, roundingDecimals: int64,
    maxCost: float64, maxCostStrategy: string, rates: seq<Rate>)

  /** Years and month days are Go ints, months and week days are
      `time.Month` and `time.Weekday`, all of them 64 bits wide. */
  datatype RITiming = RITiming(
    years: seq<int64>, months: seq<int64>, monthDays: seq<int64>, weekDays: seq<int64>,
    startTime: string, endTime: string)

  datatype RateInterval = RateInterval(timing: RITiming, rating: RIRate, weight: float64)

  datatype RatingInfo = RatingInfo(
    matchedSubject: string, ratingPlanId: string, matchedPrefix: string, matchedDestId: string,
    activationTime: Time, rateIntervals: seq<RateInterval>, fallbackKeys: seq<string>)

  datatype UnitInfo = UnitInfo(
    uuid: string, id: string, value: float64, destinationId: string, consumed: float64,
    tor: string, rateInterval: RateInterval)

  datatype MonetaryInfo = MonetaryInfo(uuid: string, id: string, value: float64, rateInterval: RateInterval)

  datatype DebitInfo = DebitInfo(unit: UnitInfo, monetary: MonetaryInfo, accountId: string)

  datatype Increment = Increment(
    duration: Duration, cost: float64, balanceInfo: DebitInfo, compressFactor: int64)

  datatype TimeSpan = TimeSpan(
    timeStart: Time, timeEnd: Time, cost: float64, rateInterval: RateInterval,
    durationIndex: Duration, increments: seq<Increment>, roundIncrement: Increment,
    matchedSubject: string, matchedPrefix: string, matchedDestId: string, ratingPlanId: string,
    compressFactor: int64)

  /** A nil AccountSummary is `None`. */
  datatype CallCost = CallCost(
    category: string, tenant: string, subject: string, account: string, destination: string,
    tor: string, cost: float64, ratedUsage: float64, accountSummary: Option<AccountSummary>,
    timespans: seq<TimeSpan>)

  datatype CallDescriptor = CallDescriptor(
    category: string, tenant: string, subject: string, account: string, destination: string,
    loopIndex: float64, fallbackSubject: string, tor: string, maxRate: float64, maxCostSoFar: float64,
    cgrId: string, runId: string, forceDuration: bool, performRounding: bool, dryRun: bool,
    denyNegativeAccount: bool, extraFields: map<string, string>,
    timeStart: Time, timeEnd: Time, durationIndex: Duration, maxRateUnit: Duration,
    ratingInfos: seq<RatingInfo>, increments: seq<Increment>)
}
