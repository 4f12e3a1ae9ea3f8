/**
 * The protobuf messages of the benchmark service (package `rpcbench`) that
 * mirror the engine's records. Integers that the engine keeps as Go ints
 * are int32 here, and times and durations are pointers (`None` is nil).
 */
module WireTypes {
  import opened Base

  datatype BalanceSummary = BalanceSummary(
    uuid: string, id: string, balanceType: string, value: float64, disabled: bool)

  datatype AccountSummary = AccountSummary(
    tenant: string, id: string, balanceSummaries: Option<seq<BalanceSummary>>,
    allowNegative: bool, disabled: bool)

  datatype Rate = Rate(
    groupIntervalStart: Option<Duration>, value: float64,
    rateIncrement: Option<Duration>, rateUnit: Option<Duration>)

  datatype RIRate = RIRate(
    connectFee: float64, roundingMethod: string, roundingDecimals: int32,
    maxCost: float64, maxCostStrategy: string, rates: seq<Rate>)

  datatype RITiming = RITiming(
    years: seq<int32>, months: seq<int32>, monthDays: seq<int32>, weekDays: seq<int32>,
    startTime: string, endTime: string)

  datatype RateInterval = RateInterval(timing: RITiming, rating: RIRate, weight: float64)

  datatype RatingInfo = RatingInfo(
    matchedSubject: string, ratingPlanId: string, matchedPrefix: string, matchedDestId: string,
    activationTime: Option<Time>, rateIntervals: seq<RateInterval>, fallbackKeys: seq<string>)

  datatype UnitInfo = UnitInfo(
    uuid: string, id: string, value: float64, destinationId: string, consumed: float64,
    tor: string, rateInterval: RateInterval)

  datatype MonetaryInfo = MonetaryInfo(uuid: string, id: string, value: float64, rateInterval: RateInterval)

  datatype DebitInfo = DebitInfo(unit: UnitInfo, monetary: MonetaryInfo, accountId: string)

  datatype Increment = Increment(
    duration: Option<Duration>, cost: float64, balanceInfo: DebitInfo, compressFactor: int32)

  datatype TimeSpan = TimeSpan(
    timeStart: Option<Time>, timeEnd: Option<Time>, cost: float64, rateInterval: RateInterval,
    durationIndex: Option<Duration>, increments: seq<Increment>, roundIncrement: Increment,
    matchedSubject: string, matchedPrefix: string, matchedDestId: string, ratingPlanId: string,
    compressFactor: int32)

  datatype CallCost = CallCost(
    category: string, tenant: string, subject: string, account: string, destination: string,
    tor: string, cost: float64, ratedUsage: float64, accountSummary: Option<AccountSummary>,
    timespans: seq<TimeSpan>)

  datatype CallDescriptor = CallDescriptor(
    category: string, tenant: string, subject: string, account: string, destination: string,
    loopIndex: float64, fallbackSubject: string, tor: string, maxRate: float64, maxCostSoFar: float64,
    cgrId: string, runId: string, forceDuration: bool, performRounding: bool, dryRun: bool,
    denyNegativeAccount: bool, extraFields: map<string, string>,
    timeStart: Option<Time>, timeEnd: Option<Time>, durationIndex: Option<Duration>,
    maxRateUnit: Option<Duration>, ratingInfos: seq<RatingInfo>, increments: seq<Increment>)
}
