/**
 * The conversions between the engine's records and their protobuf
 * messages (`New*` builds a message from an engine record, `Convert` goes
 * back). Every Go loop `for i, v := range xs { out[i] = f(v) }` is MapSeq.
 */
module Helpers {
  import opened Base
  import E = Engine
  import W = WireTypes

  /** `f` applied to every element, keeping length and order. */
  function MapSeq<A, B>(f: A -> B, s: seq<A>): (r: seq<B>)
    ensures |r| == |s|
    ensures forall i :: 0 <= i < |s| ==> r[i] == f(s[i])
  {
    if |s| == 0 then [] else [f(s[0])] + MapSeq(f, s[1..])
  }

  /** Mapping there and back gives a list back exactly when it gives every
      element back. */
  lemma MapRoundTrip<A, B>(f: A -> B, g: B -> A, s: seq<A>)
    ensures MapSeq(g, MapSeq(f, s)) == s <==> forall i :: 0 <= i < |s| ==> g(f(s[i])) == s[i]
  {
    var back := MapSeq(g, MapSeq(f, s));
    if forall i :: 0 <= i < |s| ==> g(f(s[i])) == s[i] {
      assert forall i :: 0 <= i < |s| ==> back[i] == s[i];
    }
  }

  /** Mapping there and back gives a list back exactly when every element
      satisfies `p`, given that an element comes back exactly when it
      satisfies `p`. */
  lemma MapRoundTripWhen<A, B>(f: A -> B, g: B -> A, s: seq<A>, p: A -> bool)
    requires forall i :: 0 <= i < |s| ==> (g(f(s[i])) == s[i] <==> p(s[i]))
    ensures MapSeq(g, MapSeq(f, s)) == s <==> forall i :: 0 <= i < |s| ==> p(s[i])
  {
    MapRoundTrip(f, g, s);
  }

  /** Whether a Go int fits an int32. */
  predicate InInt32(x: int64)
  {
    -0x8000_0000 <= x < 0x8000_0000
  }

  /** Go's int32(x) of a 64-bit int: the low 32 bits, read in two's
      complement. */
  function Int32Of(x: int64): (y: int32)
    ensures (y - x) % 0x1_0000_0000 == 0
    ensures InInt32(x) ==> y == x
  {
    var m := x % 0x1_0000_0000;
    if m < 0x8000_0000 then m else m - 0x1_0000_0000
  }

  /** Go's int(y) of an int32 (also time.Month(y) and time.Weekday(y)). */
  function IntOf(y: int32): (x: int64)
    ensures InInt32(x)
  {
    y
  }

  /** Narrowing to int32 and widening back gives a Go int back exactly when
      it fits an int32; widening and narrowing back always gives an int32
      back. */
  lemma NarrowingRoundTrip(x: int64, y: int32)
    ensures IntOf(Int32Of(x)) == x <==> InInt32(x)
    ensures Int32Of(IntOf(y)) == y
  {
  }

  /** A pointer to a copy of the value (Go `&r.Field`). */
  function Ref<T>(v: T): Option<T>
  {
    Some(v)
  }

  /** The value behind a pointer, or the zero value for nil (the
      `if p != nil { rt.F = *p }` of every Convert). */
  function Deref<T>(p: Option<T>, zero: T): (v: T)
    ensures p.Some? ==> v == p.value
    ensures p.None? ==> v == zero
  {
    if p.Some? then p.value else zero
  }

  // ---------------------------------------------------------------- balance and account summaries

  /** NewBalanceSummary: every field copied. */
  function NewBalanceSummary(bs: E.BalanceSummary): W.BalanceSummary
  {
    W.BalanceSummary(bs.uuid, bs.id, bs.balanceType, bs.value, bs.disabled)
  }

  /** BalanceSummary.Convert: every field copied. */
  function ConvertBalanceSummary(bs: W.BalanceSummary): E.BalanceSummary
  {
    E.BalanceSummary(bs.uuid, bs.id, bs.balanceType, bs.value, bs.disabled)
  }

  /** A balance summary comes back unchanged from either side. */
  lemma BalanceSummaryRoundTrip(e: E.BalanceSummary, w: W.BalanceSummary)
    ensures ConvertBalanceSummary(NewBalanceSummary(e)) == e
    ensures NewBalanceSummary(ConvertBalanceSummary(w)) == w
  {
  }

  /** NewAccountSummary: the scalar fields copied, and the balance summaries
      converted one by one into a fresh slice, which is never nil. */
  function NewAccountSummary(acc: E.AccountSummary): (w: W.AccountSummary)
    ensures w.balanceSummaries.Some?
  {
    var bs := if acc.balanceSummaries.Some? then acc.balanceSummaries.value else [];
    W.AccountSummary(acc.tenant, acc.id, Some(MapSeq(NewBalanceSummary, bs)), acc.allowNegative, acc.disabled)
  }

  /** AccountSummary.Convert: a nil receiver gives nil; otherwise the scalar
      fields are copied and the balance summaries converted one by one,
      with a nil slice staying nil. */
  function ConvertAccountSummary(p: Option<W.AccountSummary>): (e: Option<E.AccountSummary>)
    ensures e.Some? <==> p.Some?
  {
    if p.None? then None
    else
      var a := p.value;
      var bs := if a.balanceSummaries.Some? then Some(MapSeq(ConvertBalanceSummary, a.balanceSummaries.value)) else None;
      Some(E.AccountSummary(a.tenant, a.id, bs, a.allowNegative, a.disabled))
  }

  /** An account summary comes back with its tenant, ID, flags and balance
      summaries in order; a nil balance list comes back empty, so the value
      comes back unchanged exactly when that list was present. */
  lemma AccountSummaryRoundTrip(acc: E.AccountSummary)
    ensures var back := ConvertAccountSummary(Some(NewAccountSummary(acc)));
            && back.Some?
            && back.value.tenant == acc.tenant && back.value.id == acc.id
            && back.value.allowNegative == acc.allowNegative && back.value.disabled == acc.disabled
            && back.value.balanceSummaries == Some(if acc.balanceSummaries.Some? then acc.balanceSummaries.value else [])
            && (back == Some(acc) <==> acc.balanceSummaries.Some?)
  {
    var bs := if acc.balanceSummaries.Some? then acc.balanceSummaries.value else [];
    forall b: E.BalanceSummary {
      BalanceSummaryRoundTrip(b, NewBalanceSummary(b));
    }
    MapRoundTrip(NewBalanceSummary, ConvertBalanceSummary, bs);
  }

  // ---------------------------------------------------------------- rates

  /** NewRate: the value copied, the three durations taken by address. */
  function NewRate(r: E.Rate): W.Rate
  {
    W.Rate(Ref(r.groupIntervalStart), r.value, Ref(r.rateIncrement), Ref(r.rateUnit))
  }

  /** Rate.Convert: the value copied, each duration read through its
      pointer, nil giving zero. */
  function ConvertRate(r: W.Rate): E.Rate
  {
    E.Rate(Deref(r.groupIntervalStart, 0), r.value, Deref(r.rateIncrement, 0), Deref(r.rateUnit, 0))
  }

  /** A rate comes back unchanged; a message comes back unchanged exactly
      when none of its durations is nil. */
  lemma RateRoundTrip(e: E.Rate, w: W.Rate)
    ensures ConvertRate(NewRate(e)) == e
    ensures NewRate(ConvertRate(w)) == w <==>
              w.groupIntervalStart.Some? && w.rateIncrement.Some? && w.rateUnit.Some?
  {
  }

  /** The narrowed field of an RIRate fits. */
  predicate RIRateFits(r: E.RIRate)
  {
    InInt32(r.roundingDecimals)
  }

  /** NewRIRate: RoundingDecimals narrowed to int32, the rates converted one
      by one. */
  function NewRIRate(r: E.RIRate): W.RIRate
  {
    W.RIRate(r.connectFee, r.roundingMethod, Int32Of(r.roundingDecimals), r.maxCost, r.maxCostStrategy,
             MapSeq(NewRate, r.rates))
  }

  /** RIRate.Convert: RoundingDecimals widened back, the rates converted one
      by one. */
  function ConvertRIRate(r: W.RIRate): E.RIRate
  {
    E.RIRate(r.connectFee, r.roundingMethod, IntOf(r.roundingDecimals), r.maxCost, r.maxCostStrategy,
             MapSeq(ConvertRate, r.rates))
  }

  /** An RIRate comes back unchanged exactly when its RoundingDecimals fits
      an int32; its rates always come back in order. */
  lemma RIRateRoundTrip(r: E.RIRate)
    ensures ConvertRIRate(NewRIRate(r)).rates == r.rates
    ensures ConvertRIRate(NewRIRate(r)) == r <==> RIRateFits(r)
  {
    forall x: E.Rate {
      RateRoundTrip(x, NewRate(x));
    }
    MapRoundTrip(NewRate, ConvertRate, r.rates);
    NarrowingRoundTrip(r.roundingDecimals, 0);
  }

  // ---------------------------------------------------------------- timings

  /** Every narrowed value of a timing fits. */
  predicate RITimingFits(t: E.RITiming)
  {
    && (forall i :: 0 <= i < |t.years| ==> InInt32(t.years[i]))
    && (forall i :: 0 <= i < |t.months| ==> InInt32(t.months[i]))
    && (forall i :: 0 <= i < |t.monthDays| ==> InInt32(t.monthDays[i]))
    && (forall i :: 0 <= i < |t.weekDays| ==> InInt32(t.weekDays[i]))
  }

  /** NewRITiming: the four lists narrowed to int32 element by element, the
      two times copied. */
  function NewRITiming(t: E.RITiming): W.RITiming
  {
    W.RITiming(MapSeq(Int32Of, t.years), MapSeq(Int32Of, t.months), MapSeq(Int32Of, t.monthDays),
               MapSeq(Int32Of, t.weekDays), t.startTime, t.endTime)
  }

  /** RITiming.Convert: the four lists widened element by element. */
  function ConvertRITiming(t: W.RITiming): E.RITiming
  {
    E.RITiming(MapSeq(IntOf, t.years), MapSeq(IntOf, t.months), MapSeq(IntOf, t.monthDays),
               MapSeq(IntOf, t.weekDays), t.startTime, t.endTime)
  }

  /** A list of Go ints comes back from int32 exactly when every element fits. */
  lemma IntsRoundTrip(xs: seq<int64>)
    ensures |MapSeq(IntOf, MapSeq(Int32Of, xs))| == |xs|
    ensures MapSeq(IntOf, MapSeq(Int32Of, xs)) == xs <==> forall i :: 0 <= i < |xs| ==> InInt32(xs[i])
  {
    forall i | 0 <= i < |xs| {
      NarrowingRoundTrip(xs[i], 0);
    }
    MapRoundTripWhen(Int32Of, IntOf, xs, InInt32);
  }

  /** A timing keeps the length and order of its four lists, and comes back
      unchanged exactly when every value fits an int32. */
  lemma RITimingRoundTrip(t: E.RITiming)
    ensures var back := ConvertRITiming(NewRITiming(t));
            && |back.years| == |t.years| && |back.months| == |t.months|
            && |back.monthDays| == |t.monthDays| && |back.weekDays| == |t.weekDays|
            && (back == t <==> RITimingFits(t))
  {
    IntsRoundTrip(t.years);
    IntsRoundTrip(t.months);
    IntsRoundTrip(t.monthDays);
    IntsRoundTrip(t.weekDays);
  }

  // ---------------------------------------------------------------- rate intervals and rating infos

  /** Every narrowed value of a rate interval fits. */
  predicate RateIntervalFits(ri: E.RateInterval)
  {
    RITimingFits(ri.timing) && RIRateFits(ri.rating)
  }

  /** NewRateInterval: timing and rating converted, weight copied. */
  function NewRateInterval(ri: E.RateInterval): W.RateInterval
  {
    W.RateInterval(NewRITiming(ri.timing), NewRIRate(ri.rating), ri.weight)
  }

  /** RateInterval.Convert. */
  function ConvertRateInterval(ri: W.RateInterval): E.RateInterval
  {
    E.RateInterval(ConvertRITiming(ri.timing), ConvertRIRate(ri.rating), ri.weight)
  }

  /** A rate interval comes back unchanged exactly when its timing and its
      rating fit an int32 where they are narrowed. */
  lemma RateIntervalRoundTrip(ri: E.RateInterval)
    ensures ConvertRateInterval(NewRateInterval(ri)) == ri <==> RateIntervalFits(ri)
  {
    RITimingRoundTrip(ri.timing);
    RIRateRoundTrip(ri.rating);
  }

  /** A list of rate intervals comes back exactly when every one fits. */
  lemma RateIntervalsRoundTrip(ris: seq<E.RateInterval>)
    ensures MapSeq(ConvertRateInterval, MapSeq(NewRateInterval, ris)) == ris <==>
              forall i :: 0 <= i < |ris| ==> RateIntervalFits(ris[i])
  {
    forall i | 0 <= i < |ris| {
      RateIntervalRoundTrip(ris[i]);
    }
    MapRoundTripWhen(NewRateInterval, ConvertRateInterval, ris, RateIntervalFits);
  }

  /** Every narrowed value of a rating info fits. */
  predicate RatingInfoFits(ri: E.RatingInfo)
  {
    forall i :: 0 <= i < |ri.rateIntervals| ==> RateIntervalFits(ri.rateIntervals[i])
  }

  /** NewRatingInfo: the strings copied, the activation time taken by
      address, the rate intervals converted and the fallback keys copied
      one by one. */
  function NewRatingInfo(ri: E.RatingInfo): W.RatingInfo
  {
    W.RatingInfo(ri.matchedSubject, ri.ratingPlanId, ri.matchedPrefix, ri.matchedDestId,
                 Ref(ri.activationTime), MapSeq(NewRateInterval, ri.rateIntervals), ri.fallbackKeys)
  }

  /** RatingInfo.Convert as written: the nil check on ActivationTime
      assigns the message's own field to itself, so the engine record keeps
      the zero time whatever the message carries. */
  function ConvertRatingInfoAsWritten(ri: W.RatingInfo): (e: E.RatingInfo)
    ensures e.activationTime == ZeroTime
  {
    E.RatingInfo(ri.matchedSubject, ri.ratingPlanId, ri.matchedPrefix, ri.matchedDestId,
                 ZeroTime, MapSeq(ConvertRateInterval, ri.rateIntervals), ri.fallbackKeys)
  }

  /** As written, a rating info comes back unchanged exactly when its rate
      intervals fit and its activation time is the zero time: every other
      activation time is lost. */
  lemma RatingInfoRoundTripAsWritten(ri: E.RatingInfo)
    ensures ConvertRatingInfoAsWritten(NewRatingInfo(ri)) == ri <==>
              RatingInfoFits(ri) && ri.activationTime == ZeroTime
  {
    RateIntervalsRoundTrip(ri.rateIntervals);
  }

  /** RatingInfo.Convert with the activation time read through its pointer,
      as Convert does for every other pointer field, nil giving the zero
      time. */
  function ConvertRatingInfo(ri: W.RatingInfo): (e: E.RatingInfo)
    ensures ri.activationTime.Some? ==> e.activationTime == ri.activationTime.value
    ensures ri.activationTime.None? ==> e.activationTime == ZeroTime
  {
    E.RatingInfo(ri.matchedSubject, ri.ratingPlanId, ri.matchedPrefix, ri.matchedDestId,
                 Deref(ri.activationTime, ZeroTime), MapSeq(ConvertRateInterval, ri.rateIntervals),
                 ri.fallbackKeys)
  }

  /** The two readings of a message agree exactly when it carries no
      activation time other than the zero time. */
  lemma ConvertRatingInfoAgrees(ri: W.RatingInfo)
    ensures ConvertRatingInfo(ri) == ConvertRatingInfoAsWritten(ri) <==>
              ri.activationTime.None? || ri.activationTime.value == ZeroTime
  {
  }

  /** A rating info keeps its strings, fallback keys, activation time and
      the length and order of its rate intervals; it comes back unchanged
      exactly when its rate intervals fit. */
  lemma RatingInfoRoundTrip(ri: E.RatingInfo)
    ensures var back := ConvertRatingInfo(NewRatingInfo(ri));
            && back.matchedSubject == ri.matchedSubject && back.ratingPlanId == ri.ratingPlanId
            && back.matchedPrefix == ri.matchedPrefix && back.matchedDestId == ri.matchedDestId
            && back.fallbackKeys == ri.fallbackKeys
            && |back.rateIntervals| == |ri.rateIntervals|
            && back.activationTime == ri.activationTime
            && (back == ri <==> RatingInfoFits(ri))
  {
    RateIntervalsRoundTrip(ri.rateIntervals);
  }

  // ---------------------------------------------------------------- debit infos and increments

  /** NewUnitInfo. */
  function NewUnitInfo(u: E.UnitInfo): W.UnitInfo
  {
    W.UnitInfo(u.uuid, u.id, u.value, u.destinationId, u.consumed, u.tor, NewRateInterval(u.rateInterval))
  }

  /** UnitInfo.Convert. */
  function ConvertUnitInfo(u: W.UnitInfo): E.UnitInfo
  {
    E.UnitInfo(u.uuid, u.id, u.value, u.destinationId, u.consumed, u.tor, ConvertRateInterval(u.rateInterval))
  }

  /** NewMonetaryInfo. */
  function NewMonetaryInfo(m: E.MonetaryInfo): W.MonetaryInfo
  {
    W.MonetaryInfo(m.uuid, m.id, m.value, NewRateInterval(m.rateInterval))
  }

  /** MonetaryInfo.Convert. */
  function ConvertMonetaryInfo(m: W.MonetaryInfo): E.MonetaryInfo
  {
    E.MonetaryInfo(m.uuid, m.id, m.value, ConvertRateInterval(m.rateInterval))
  }

  /** Every narrowed value of a debit info fits. */
  predicate DebitInfoFits(d: E.DebitInfo)
  {
    RateIntervalFits(d.unit.rateInterval) && RateIntervalFits(d.monetary.rateInterval)
  }

  /** NewDebitInfo. */
  function NewDebitInfo(d: E.DebitInfo): W.DebitInfo
  {
    W.DebitInfo(NewUnitInfo(d.unit), NewMonetaryInfo(d.monetary), d.accountId)
  }

  /** DebitInfo.Convert. */
  function ConvertDebitInfo(d: W.DebitInfo): E.DebitInfo
  {
    E.DebitInfo(ConvertUnitInfo(d.unit), ConvertMonetaryInfo(d.monetary), d.accountId)
  }

  /** A debit info, with its unit and monetary parts, comes back unchanged
      exactly when both rate intervals fit. */
  lemma DebitInfoRoundTrip(d: E.DebitInfo)
    ensures ConvertUnitInfo(NewUnitInfo(d.unit)) == d.unit <==> RateIntervalFits(d.unit.rateInterval)
    ensures ConvertMonetaryInfo(NewMonetaryInfo(d.monetary)) == d.monetary <==> RateIntervalFits(d.monetary.rateInterval)
    ensures ConvertDebitInfo(NewDebitInfo(d)) == d <==> DebitInfoFits(d)
  {
    RateIntervalRoundTrip(d.unit.rateInterval);
    RateIntervalRoundTrip(d.monetary.rateInterval);
  }

  /** Every narrowed value of an increment fits. */
  predicate IncrementFits(inc: E.Increment)
  {
    InInt32(inc.compressFactor) && DebitInfoFits(inc.balanceInfo)
  }

  /** NewIncrement: the duration taken by address, CompressFactor narrowed
      to int32. */
  function NewIncrement(inc: E.Increment): W.Increment
  {
    W.Increment(Ref(inc.duration), inc.cost, NewDebitInfo(inc.balanceInfo), Int32Of(inc.compressFactor))
  }

  /** Increment.Convert: CompressFactor widened, the duration read through
      its pointer, nil giving zero. */
  function ConvertIncrement(inc: W.Increment): E.Increment
  {
    E.Increment(Deref(inc.duration, 0), inc.cost, ConvertDebitInfo(inc.balanceInfo), IntOf(inc.compressFactor))
  }

  /** An increment comes back unchanged exactly when its CompressFactor and
      its debit info fit an int32 where they are narrowed. */
  lemma IncrementRoundTrip(inc: E.Increment)
    ensures ConvertIncrement(NewIncrement(inc)).duration == inc.duration
    ensures ConvertIncrement(NewIncrement(inc)) == inc <==> IncrementFits(inc)
  {
    DebitInfoRoundTrip(inc.balanceInfo);
    NarrowingRoundTrip(inc.compressFactor, 0);
  }

  /** Every increment of a list fits. */
  predicate IncrementsFit(incs: seq<E.Increment>)
  {
    forall i :: 0 <= i < |incs| ==> IncrementFits(incs[i])
  }

  /** A list of increments comes back exactly when every one fits. */
  lemma IncrementsRoundTrip(incs: seq<E.Increment>)
    ensures MapSeq(ConvertIncrement, MapSeq(NewIncrement, incs)) == incs <==> IncrementsFit(incs)
  {
    forall i | 0 <= i < |incs| {
      IncrementRoundTrip(incs[i]);
    }
    MapRoundTripWhen(NewIncrement, ConvertIncrement, incs, IncrementFits);
  }

  // ---------------------------------------------------------------- time spans and call costs

  /** Every narrowed value of a time span fits. */
  predicate TimeSpanFits(ts: E.TimeSpan)
  {
    && RateIntervalFits(ts.rateInterval)
    && (forall i :: 0 <= i < |ts.increments| ==> IncrementFits(ts.increments[i]))
    && IncrementFits(ts.roundIncrement)
    && InInt32(ts.compressFactor)
  }

  /** NewTimeSpan: the two times and DurationIndex taken by address, the
      nested records and increments converted, CompressFactor narrowed. */
  function NewTimeSpan(ts: E.TimeSpan): W.TimeSpan
  {
    W.TimeSpan(Ref(ts.timeStart), Ref(ts.timeEnd), ts.cost, NewRateInterval(ts.rateInterval),
               Ref(ts.durationIndex), MapSeq(NewIncrement, ts.increments), NewIncrement(ts.roundIncrement),
               ts.matchedSubject, ts.matchedPrefix, ts.matchedDestId, ts.ratingPlanId,
               Int32Of(ts.compressFactor))
  }

  /** TimeSpan.Convert: TimeStart, TimeEnd and DurationIndex read through
      their pointers, nil giving the zero value. */
  function ConvertTimeSpan(ts: W.TimeSpan): E.TimeSpan
  {
    E.TimeSpan(Deref(ts.timeStart, ZeroTime), Deref(ts.timeEnd, ZeroTime), ts.cost,
               ConvertRateInterval(ts.rateInterval), Deref(ts.durationIndex, 0),
               MapSeq(ConvertIncrement, ts.increments), ConvertIncrement(ts.roundIncrement),
               ts.matchedSubject, ts.matchedPrefix, ts.matchedDestId, ts.ratingPlanId,
               IntOf(ts.compressFactor))
  }

  /** What a time span comes back as: itself with the parts that go
      through a conversion replaced by what came back from it. */
  lemma TimeSpanParts(ts: E.TimeSpan)
    ensures ConvertTimeSpan(NewTimeSpan(ts)) ==
              ts.(rateInterval := ConvertRateInterval(NewRateInterval(ts.rateInterval)),
                  increments := MapSeq(ConvertIncrement, MapSeq(NewIncrement, ts.increments)),
                  roundIncrement := ConvertIncrement(NewIncrement(ts.roundIncrement)),
                  compressFactor := IntOf(Int32Of(ts.compressFactor)))
  {
  }

  /** A time span always gets back its TimeStart, TimeEnd and DurationIndex
      and the number of its increments, and comes back unchanged exactly
      when everything narrowed in it fits an int32. */
  lemma TimeSpanRoundTrip(ts: E.TimeSpan)
    ensures var back := ConvertTimeSpan(NewTimeSpan(ts));
            && back.timeStart == ts.timeStart && back.timeEnd == ts.timeEnd
            && back.durationIndex == ts.durationIndex
            && |back.increments| == |ts.increments|
            && (back == ts <==> TimeSpanFits(ts))
  {
    TimeSpanParts(ts);
    RateIntervalRoundTrip(ts.rateInterval);
    IncrementsRoundTrip(ts.increments);
    IncrementRoundTrip(ts.roundIncrement);
    NarrowingRoundTrip(ts.compressFactor, 0);
  }

  /** A message whose pointers are all set comes back from the engine side
      unchanged when its narrowed values are read back as they are. */
  lemma TimeSpanPointersRoundTrip(w: W.TimeSpan)
    ensures var back := NewTimeSpan(ConvertTimeSpan(w));
            && (back.timeStart == w.timeStart <==> w.timeStart.Some?)
            && (back.timeEnd == w.timeEnd <==> w.timeEnd.Some?)
            && (back.durationIndex == w.durationIndex <==> w.durationIndex.Some?)
            && back.compressFactor == w.compressFactor
  {
    NarrowingRoundTrip(0, w.compressFactor);
  }

  /** NewCallCost. The engine's AccountSummary is passed to
      NewAccountSummary, which dereferences it, so it must not be nil. */
  function NewCallCost(cc: E.CallCost): W.CallCost
    requires cc.accountSummary.Some?
  {
    W.CallCost(cc.category, cc.tenant, cc.subject, cc.account, cc.destination, cc.tor, cc.cost,
               cc.ratedUsage, Some(NewAccountSummary(cc.accountSummary.value)),
               MapSeq(NewTimeSpan, cc.timespans))
  }

  /** CallCost.Convert: a nil account summary stays nil. */
  function ConvertCallCost(cc: W.CallCost): E.CallCost
  {
    E.CallCost(cc.category, cc.tenant, cc.subject, cc.account, cc.destination, cc.tor, cc.cost,
               cc.ratedUsage, ConvertAccountSummary(cc.accountSummary), MapSeq(ConvertTimeSpan, cc.timespans))
  }

  /** A call cost comes back unchanged exactly when every time span fits
      and its account summary has a (possibly empty) balance list. */
  lemma CallCostRoundTrip(cc: E.CallCost)
    requires cc.accountSummary.Some?
    ensures ConvertCallCost(NewCallCost(cc)) == cc <==>
              && (forall i :: 0 <= i < |cc.timespans| ==> TimeSpanFits(cc.timespans[i]))
              && cc.accountSummary.value.balanceSummaries.Some?
  {
    var tss := MapSeq(ConvertTimeSpan, MapSeq(NewTimeSpan, cc.timespans));
    var acc := ConvertAccountSummary(Some(NewAccountSummary(cc.accountSummary.value)));
    assert ConvertCallCost(NewCallCost(cc)) == cc.(accountSummary := acc, timespans := tss);
    AccountSummaryRoundTrip(cc.accountSummary.value);
    TimeSpansRoundTrip(cc.timespans);
  }

  /** A list of time spans comes back exactly when every one fits. */
  lemma TimeSpansRoundTrip(tss: seq<E.TimeSpan>)
    ensures MapSeq(ConvertTimeSpan, MapSeq(NewTimeSpan, tss)) == tss <==>
              forall i :: 0 <= i < |tss| ==> TimeSpanFits(tss[i])
  {
    forall i | 0 <= i < |tss| {
      TimeSpanRoundTrip(tss[i]);
    }
    MapRoundTripWhen(NewTimeSpan, ConvertTimeSpan, tss, TimeSpanFits);
  }

  // ---------------------------------------------------------------- call descriptors

  /** Every narrowed value of a call descriptor fits. */
  predicate CallDescriptorFits(cd: E.CallDescriptor)
  {
    RatingInfosFit(cd.ratingInfos) && IncrementsFit(cd.increments)
  }

  /** Every rating info of a list fits. */
  predicate RatingInfosFit(ris: seq<E.RatingInfo>)
  {
    forall i :: 0 <= i < |ris| ==> RatingInfoFits(ris[i])
  }

  /** NewCallDescriptor: the scalars and ExtraFields copied, the two times,
      DurationIndex and MaxRateUnit taken by address, the rating infos and
      increments converted one by one. */
  function NewCallDescriptor(cd: E.CallDescriptor): W.CallDescriptor
  {
    W.CallDescriptor(cd.category, cd.tenant, cd.subject, cd.account, cd.destination, cd.loopIndex,
                     cd.fallbackSubject, cd.tor, cd.maxRate, cd.maxCostSoFar, cd.cgrId, cd.runId,
                     cd.forceDuration, cd.performRounding, cd.dryRun, cd.denyNegativeAccount, cd.extraFields,
                     Ref(cd.timeStart), Ref(cd.timeEnd), Ref(cd.durationIndex), Ref(cd.maxRateUnit),
                     MapSeq(NewRatingInfo, cd.ratingInfos), MapSeq(NewIncrement, cd.increments))
  }

  /** CallDescriptor.Convert: the two times, DurationIndex and MaxRateUnit
      read through their pointers, nil giving the zero value, and each
      rating info converted by RatingInfo.Convert as written, which drops
      its activation time. */
  function ConvertCallDescriptor(cd: W.CallDescriptor): E.CallDescriptor
  {
    E.CallDescriptor(cd.category, cd.tenant, cd.subject, cd.account, cd.destination, cd.loopIndex,
                     cd.fallbackSubject, cd.tor, cd.maxRate, cd.maxCostSoFar, cd.cgrId, cd.runId,
                     cd.forceDuration, cd.performRounding, cd.dryRun, cd.denyNegativeAccount, cd.extraFields,
                     Deref(cd.timeStart, ZeroTime), Deref(cd.timeEnd, ZeroTime), Deref(cd.durationIndex, 0),
                     Deref(cd.maxRateUnit, 0),
                     MapSeq(ConvertRatingInfoAsWritten, cd.ratingInfos), MapSeq(ConvertIncrement, cd.increments))
  }

  /** What a call descriptor comes back as: itself with its two lists
      replaced by what came back from converting them. */
  lemma CallDescriptorParts(cd: E.CallDescriptor)
    ensures ConvertCallDescriptor(NewCallDescriptor(cd)) ==
              cd.(ratingInfos := MapSeq(ConvertRatingInfoAsWritten, MapSeq(NewRatingInfo, cd.ratingInfos)),
                  increments := MapSeq(ConvertIncrement, MapSeq(NewIncrement, cd.increments)))
  {
  }

  /** Every rating info of a list carries the zero activation time. */
  predicate ActivationTimesZero(ris: seq<E.RatingInfo>)
  {
    forall i :: 0 <= i < |ris| ==> ris[i].activationTime == ZeroTime
  }

  /** A rating info survives RatingInfo.Convert as written. */
  predicate RatingInfoKept(ri: E.RatingInfo)
  {
    RatingInfoFits(ri) && ri.activationTime == ZeroTime
  }

  /** A call descriptor always gets back its times, DurationIndex,
      MaxRateUnit and the number of its rating infos and increments, and
      comes back unchanged exactly when everything narrowed in it fits and
      no rating info carries an activation time other than the zero time,
      since RatingInfo.Convert as written drops it. */
  lemma CallDescriptorRoundTrip(cd: E.CallDescriptor)
    ensures var back := ConvertCallDescriptor(NewCallDescriptor(cd));
            && back.timeStart == cd.timeStart && back.timeEnd == cd.timeEnd
            && back.durationIndex == cd.durationIndex && back.maxRateUnit == cd.maxRateUnit
            && |back.ratingInfos| == |cd.ratingInfos| && |back.increments| == |cd.increments|
            && (back == cd <==> CallDescriptorFits(cd) && ActivationTimesZero(cd.ratingInfos))
  {
    CallDescriptorParts(cd);
    ListsReplaced(cd, MapSeq(ConvertRatingInfoAsWritten, MapSeq(NewRatingInfo, cd.ratingInfos)),
                  MapSeq(ConvertIncrement, MapSeq(NewIncrement, cd.increments)));
    RatingInfosRoundTrip(cd.ratingInfos);
    IncrementsRoundTrip(cd.increments);
  }

  /** A call descriptor with its two lists replaced is the same one exactly
      when both lists are. */
  lemma ListsReplaced(cd: E.CallDescriptor, ris: seq<E.RatingInfo>, incs: seq<E.Increment>)
    ensures cd.(ratingInfos := ris, increments := incs) == cd <==> ris == cd.ratingInfos && incs == cd.increments
  {
  }

  /** A list of rating infos comes back from RatingInfo.Convert as written
      exactly when every one fits and carries the zero activation time. */
  lemma RatingInfosRoundTrip(ris: seq<E.RatingInfo>)
    ensures MapSeq(ConvertRatingInfoAsWritten, MapSeq(NewRatingInfo, ris)) == ris <==>
              RatingInfosFit(ris) && ActivationTimesZero(ris)
  {
    forall i | 0 <= i < |ris| {
      RatingInfoRoundTripAsWritten(ris[i]);
    }
    MapRoundTripWhen(NewRatingInfo, ConvertRatingInfoAsWritten, ris, RatingInfoKept);
  }

  /** CallDescriptor.Convert with the corrected RatingInfo.Convert, which
      reads the activation time through its pointer. */
  function ConvertCallDescriptorCorrected(cd: W.CallDescriptor): E.CallDescriptor
  {
    ConvertCallDescriptor(cd).(ratingInfos := MapSeq(ConvertRatingInfo, cd.ratingInfos))
  }

  /** With the corrected RatingInfo.Convert, a call descriptor comes back
      unchanged exactly when everything narrowed in it fits, whatever its
      activation times. */
  lemma CallDescriptorRoundTripCorrected(cd: E.CallDescriptor)
    ensures var back := ConvertCallDescriptorCorrected(NewCallDescriptor(cd));
            && |back.ratingInfos| == |cd.ratingInfos|
            && (back == cd <==> CallDescriptorFits(cd))
  {
    CallDescriptorPartsCorrected(cd);
    ListsReplaced(cd, MapSeq(ConvertRatingInfo, MapSeq(NewRatingInfo, cd.ratingInfos)),
                  MapSeq(ConvertIncrement, MapSeq(NewIncrement, cd.increments)));
    RatingInfosRoundTripCorrected(cd.ratingInfos);
    IncrementsRoundTrip(cd.increments);
  }

  /** What a call descriptor comes back as through the corrected conversion. */
  lemma CallDescriptorPartsCorrected(cd: E.CallDescriptor)
    ensures ConvertCallDescriptorCorrected(NewCallDescriptor(cd)) ==
              cd.(ratingInfos := MapSeq(ConvertRatingInfo, MapSeq(NewRatingInfo, cd.ratingInfos)),
                  increments := MapSeq(ConvertIncrement, MapSeq(NewIncrement, cd.increments)))
  {
    CallDescriptorParts(cd);
  }

  /** A list of rating infos comes back from the corrected
      RatingInfo.Convert exactly when every one fits. */
  lemma RatingInfosRoundTripCorrected(ris: seq<E.RatingInfo>)
    ensures MapSeq(ConvertRatingInfo, MapSeq(NewRatingInfo, ris)) == ris <==> RatingInfosFit(ris)
  {
    forall i | 0 <= i < |ris| {
      RatingInfoRoundTrip(ris[i]);
    }
    MapRoundTripWhen(NewRatingInfo, ConvertRatingInfo, ris, RatingInfoFits);
  }
}
