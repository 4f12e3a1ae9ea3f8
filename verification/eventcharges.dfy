/**
 * EventCharges: the charges applied to an event. Merge folds other
 * EventCharges into a receiver, summing its two decimal totals, Abstracts
 * and Concretes, each on its own; the other fields are carried along
 * untouched.
 */
module EventCharges {
  import opened Base

  /** A decimal of the decimal library behind SumBig, as an exact number. */
  type Decimal = real

  /** The record types the other fields point to; Merge never looks
      inside them. */
  type ChargingInterval(==)
  type AccountProfile(==)
  type ChargingAccountS(==)
  type ChargingRateS(==)

  /** EventCharges. A nil pointer or a nil slice is `None`. */
  datatype EventCharges = EventCharges(
    abstracts: Option<Decimal>,
    concretes: Option<Decimal>,
    chargingIntervals: Option<seq<ChargingInterval>>,
    accounts: Option<seq<AccountProfile>>,
    accounting: Option<ChargingAccountS>,
    rating: Option<ChargingRateS>)

  /** What a call that dereferences a nil pointer ends in. */
  datatype Panic = NilDereference

  /** NewEventCharges: `new(EventCharges)`, every field nil. */
  function NewEventCharges(): (ec: EventCharges)
    ensures ec.abstracts.None? && ec.concretes.None?
    ensures ec.chargingIntervals.None? && ec.accounts.None?
    ensures ec.accounting.None? && ec.rating.None?
  {
    EventCharges(None, None, None, None, None, None)
  }

  // ---------------------------------------------------------------- one total

  /** One step of Merge on one total: a nil total takes the argument's
      pointer as it is; a set total becomes the sum with the argument's,
      which is dereferenced and so must be set. */
  function MergeTotal(acc: Option<Decimal>, x: Option<Decimal>): (r: Result<Option<Decimal>, Panic>)
    ensures acc.None? ==> r == Ok(x)
    ensures acc.Some? ==> (r.Ok? <==> x.Some?)
    ensures acc.Some? && x.Some? ==> r == Ok(Some(acc.value + x.value))
  {
    if acc.Some? then
      if x.None? then Err(NilDereference) else Ok(Some(acc.value + x.value))
    else Ok(x)
  }

  /** One total folded over the arguments' totals from left to right. */
  function FoldTotal(acc: Option<Decimal>, xs: seq<Option<Decimal>>): (r: Result<Option<Decimal>, Panic>)
    decreases |xs|
  {
    if |xs| == 0 then Ok(acc)
    else
      var step := MergeTotal(acc, xs[0]);
      if step.Err? then Err(step.error) else FoldTotal(step.value, xs[1..])
  }

  /** The totals a fold can take without a nil dereference: once some
      total is set (the start, or an earlier argument's), every later
      argument's total must be set. */
  predicate Summable(acc: Option<Decimal>, xs: seq<Option<Decimal>>)
  {
    && (acc.Some? ==> forall i :: 0 <= i < |xs| ==> xs[i].Some?)
    && (forall i, j :: 0 <= i < j < |xs| && xs[i].Some? ==> xs[j].Some?)
  }

  /** The sum of the totals that are set. */
  function SumSet(xs: seq<Option<Decimal>>): Decimal
    decreases |xs|
  {
    if |xs| == 0 then 0.0
    else (if xs[|xs| - 1].Some? then xs[|xs| - 1].value else 0.0) + SumSet(xs[..|xs| - 1])
  }

  /** Whether any total is set. */
  predicate AnySet(xs: seq<Option<Decimal>>)
  {
    exists i :: 0 <= i < |xs| && xs[i].Some?
  }

  /** What a total adds up to: nothing when none of them is set, otherwise
      the sum of those that are. */
  function Total(acc: Option<Decimal>, xs: seq<Option<Decimal>>): Option<Decimal>
  {
    if acc.None? && !AnySet(xs) then None
    else Some((if acc.Some? then acc.value else 0.0) + SumSet(xs))
  }

  /** SumSet over a sequence with one more element at its front. */
  lemma {:induction false} SumSetCons(x: Option<Decimal>, xs: seq<Option<Decimal>>)
    ensures SumSet([x] + xs) == (if x.Some? then x.value else 0.0) + SumSet(xs)
    decreases |xs|
  {
    if |xs| == 0 {
      assert ([x] + xs)[..0] == [];
    } else {
      var init := xs[..|xs| - 1];
      assert ([x] + xs)[..|[x] + xs| - 1] == [x] + init;
      SumSetCons(x, init);
    }
  }

  /** The totals that are all unset add up to zero. */
  lemma {:induction false} SumSetNone(xs: seq<Option<Decimal>>)
    requires !AnySet(xs)
    ensures SumSet(xs) == 0.0
    decreases |xs|
  {
    if |xs| > 0 {
      assert xs[|xs| - 1].None?;
      var init := xs[..|xs| - 1];
      assert !AnySet(init) by {
        forall i | 0 <= i < |init| ensures init[i].None? {
          assert init[i] == xs[i];
        }
      }
      SumSetNone(init);
    }
  }

  /** Folding one total succeeds exactly when no set total meets an unset
      argument, and then gives the sum of every total that is set (nil when
      none is). */
  lemma {:induction false} FoldTotalLaw(acc: Option<Decimal>, xs: seq<Option<Decimal>>)
    ensures FoldTotal(acc, xs).Ok? <==> Summable(acc, xs)
    ensures FoldTotal(acc, xs).Ok? ==> FoldTotal(acc, xs).value == Total(acc, xs)
    decreases |xs|
  {
    if |xs| == 0 {
      assert !AnySet(xs);
    } else {
      var x, tail := xs[0], xs[1..];
      assert xs == [x] + tail;
      SumSetCons(x, tail);
      var step := MergeTotal(acc, x);
      if step.Ok? {
        FoldTotalLaw(step.value, tail);
        SummableStep(acc, x, tail);
        if FoldTotal(acc, xs).Ok? {
          TotalStep(acc, x, tail);
        }
      } else {
        assert acc.Some? && xs[0].None?;
      }
    }
  }

  /** Summable over [x] + tail, after a step that did not fail. */
  lemma SummableStep(acc: Option<Decimal>, x: Option<Decimal>, tail: seq<Option<Decimal>>)
    requires MergeTotal(acc, x).Ok?
    ensures Summable(acc, [x] + tail) <==> Summable(MergeTotal(acc, x).value, tail)
  {
    var xs := [x] + tail;
    var next := MergeTotal(acc, x).value;
    if Summable(next, tail) {
      forall i, j | 0 <= i < j < |xs| && xs[i].Some? ensures xs[j].Some? {
        assert xs[j] == tail[j - 1];
        if i > 0 { assert xs[i] == tail[i - 1]; }
      }
      forall i | acc.Some? && 0 <= i < |xs| ensures xs[i].Some? {
        if i > 0 { assert xs[i] == tail[i - 1]; }
      }
    }
    if Summable(acc, xs) {
      forall i | next.Some? && 0 <= i < |tail| ensures tail[i].Some? {
        assert tail[i] == xs[i + 1] && xs[0] == x;
      }
      forall i, j | 0 <= i < j < |tail| && tail[i].Some? ensures tail[j].Some? {
        assert tail[i] == xs[i + 1] && tail[j] == xs[j + 1];
      }
    }
  }

  /** The total over [x] + tail is the total over tail after one step. */
  lemma TotalStep(acc: Option<Decimal>, x: Option<Decimal>, tail: seq<Option<Decimal>>)
    requires MergeTotal(acc, x).Ok?
    requires SumSet([x] + tail) == (if x.Some? then x.value else 0.0) + SumSet(tail)
    ensures Total(acc, [x] + tail) == Total(MergeTotal(acc, x).value, tail)
  {
    var xs := [x] + tail;
    if AnySet(tail) {
      var k :| 0 <= k < |tail| && tail[k].Some?;
      assert xs[k + 1] == tail[k];
    }
    if x.Some? {
      assert xs[0].Some?;
    } else if !AnySet(tail) {
      assert !AnySet(xs) by {
        forall i | 0 <= i < |xs| ensures xs[i].None? {
          if i > 0 { assert xs[i] == tail[i - 1]; }
        }
      }
      SumSetNone(tail);
    }
  }

  // ---------------------------------------------------------------- Merge

  /** The Abstracts of each argument. */
  function AbstractsOf(args: seq<EventCharges>): (xs: seq<Option<Decimal>>)
    ensures |xs| == |args| && forall i :: 0 <= i < |args| ==> xs[i] == args[i].abstracts
  {
    seq(|args|, i requires 0 <= i < |args| => args[i].abstracts)
  }

  /** The Concretes of each argument. */
  function ConcretesOf(args: seq<EventCharges>): (xs: seq<Option<Decimal>>)
    ensures |xs| == |args| && forall i :: 0 <= i < |args| ==> xs[i] == args[i].concretes
  {
    seq(|args|, i requires 0 <= i < |args| => args[i].concretes)
  }

  /** One iteration of the loop in Merge: Abstracts, then Concretes. A nil
      argument is dereferenced at once. */
  function MergeOne(ec: EventCharges, arg: Option<EventCharges>): (r: Result<EventCharges, Panic>)
    ensures arg.None? ==> r.Err?
    ensures r.Ok? ==> && r.value.chargingIntervals == ec.chargingIntervals && r.value.accounts == ec.accounts
                      && r.value.accounting == ec.accounting && r.value.rating == ec.rating
  {
    if arg.None? then Err(NilDereference)
    else
      var a := MergeTotal(ec.abstracts, arg.value.abstracts);
      var c := MergeTotal(ec.concretes, arg.value.concretes);
      if a.Err? || c.Err? then Err(NilDereference)
      else Ok(ec.(abstracts := a.value, concretes := c.value))
  }

  /** EventCharges.Merge: the arguments merged one at a time, from left to
      right. A nil dereference anywhere ends the call. */
  function Merge(ec: EventCharges, args: seq<Option<EventCharges>>): (r: Result<EventCharges, Panic>)
    ensures args == [] ==> r == Ok(ec)
    decreases |args|
  {
    if |args| == 0 then Ok(ec)
    else
      var step := MergeOne(ec, args[0]);
      if step.Err? then Err(step.error) else Merge(step.value, args[1..])
  }

  /** Merge applied to a result: an earlier panic stays a panic. */
  function Then(r: Result<EventCharges, Panic>, args: seq<Option<EventCharges>>): Result<EventCharges, Panic>
  {
    if r.Err? then r else Merge(r.value, args)
  }

  /** Merging a list of arguments is merging its first part, then the
      rest. */
  lemma {:induction false} MergeAppend(ec: EventCharges, a: seq<Option<EventCharges>>, b: seq<Option<EventCharges>>)
    ensures Merge(ec, a + b) == Then(Merge(ec, a), b)
    decreases |a|
  {
    if |a| == 0 {
      assert a + b == b;
    } else {
      assert (a + b)[0] == a[0] && (a + b)[1..] == a[1..] + b;
      var step := MergeOne(ec, a[0]);
      if step.Ok? {
        assert Merge(ec, a + b) == Merge(step.value, a[1..] + b);
        assert Merge(ec, a) == Merge(step.value, a[1..]);
        MergeAppend(step.value, a[1..], b);
      }
    }
  }

  /** Merge is a left fold of single merges. */
  lemma MergeIsFold(ec: EventCharges, args: seq<Option<EventCharges>>, x: Option<EventCharges>)
    ensures Merge(ec, args + [x]) == Then(Merge(ec, args), [x])
  {
    MergeAppend(ec, args, [x]);
  }

  /** Whether every argument is a non-nil pointer. */
  predicate AllSet(args: seq<Option<EventCharges>>)
  {
    forall i :: 0 <= i < |args| ==> args[i].Some?
  }

  /** The arguments behind their pointers. */
  function Values(args: seq<Option<EventCharges>>): (vs: seq<EventCharges>)
    requires AllSet(args)
    ensures |vs| == |args| && forall i :: 0 <= i < |args| ==> vs[i] == args[i].value
  {
    seq(|args|, i requires 0 <= i < |args| && AllSet(args) => args[i].value)
  }

  /** The two totals folded over the arguments, each on its own; the call
      fails when either fold does. */
  function Folded(ec: EventCharges, vs: seq<EventCharges>): Result<EventCharges, Panic>
  {
    var a := FoldTotal(ec.abstracts, AbstractsOf(vs));
    var c := FoldTotal(ec.concretes, ConcretesOf(vs));
    if a.Err? || c.Err? then Err(NilDereference)
    else Ok(ec.(abstracts := a.value, concretes := c.value))
  }

  /** The arguments are all set exactly when the first and the rest are,
      and then their values are the first's followed by the rest's. */
  lemma ValuesCons(args: seq<Option<EventCharges>>)
    requires |args| > 0
    ensures AllSet(args) <==> args[0].Some? && AllSet(args[1..])
    ensures AllSet(args) ==> Values(args) == [args[0].value] + Values(args[1..])
  {
    var tail := args[1..];
    assert forall i :: 0 <= i < |tail| ==> tail[i] == args[i + 1];
    if AllSet(args) {
      var vs, ws := Values(args), [args[0].value] + Values(tail);
      assert forall i :: 0 <= i < |vs| ==> vs[i] == ws[i] by {
        forall i | 0 <= i < |vs| ensures vs[i] == ws[i] {
          if i > 0 { assert ws[i] == Values(tail)[i - 1] == tail[i - 1].value; }
        }
      }
    }
  }

  /** One fold step of Folded, seen from the first argument. */
  lemma FoldedCons(ec: EventCharges, v: EventCharges, vs: seq<EventCharges>)
    ensures var a := MergeTotal(ec.abstracts, v.abstracts);
            var c := MergeTotal(ec.concretes, v.concretes);
            Folded(ec, [v] + vs) ==
              if a.Err? || c.Err? then Err(NilDereference)
              else Folded(ec.(abstracts := a.value, concretes := c.value), vs)
  {
    var xs, ys := AbstractsOf([v] + vs), ConcretesOf([v] + vs);
    assert xs[0] == v.abstracts && xs[1..] == AbstractsOf(vs);
    assert ys[0] == v.concretes && ys[1..] == ConcretesOf(vs);
  }

  /** The two totals are merged independently: Merge succeeds exactly when
      no argument is nil and each total folds without a nil dereference,
      and then only the two totals change. */
  lemma {:induction false} MergeSplits(ec: EventCharges, args: seq<Option<EventCharges>>)
    ensures Merge(ec, args) == if AllSet(args) then Folded(ec, Values(args)) else Err(NilDereference)
    decreases |args|
  {
    if |args| == 0 {
      assert Values(args) == [];
    } else {
      ValuesCons(args);
      if args[0].Some? {
        var v := args[0].value;
        var tail := args[1..];
        var a := MergeTotal(ec.abstracts, v.abstracts);
        var c := MergeTotal(ec.concretes, v.concretes);
        if AllSet(args) {
          FoldedCons(ec, v, Values(tail));
        }
        if !(a.Err? || c.Err?) {
          MergeSplits(ec.(abstracts := a.value, concretes := c.value), tail);
        }
      }
    }
  }

  /** What Merge promises in the terms of the totals: it succeeds exactly
      when no argument is nil and neither total meets an unset argument
      after it has been set; Abstracts and Concretes then each hold the sum
      of the totals that were set (staying nil when none was), and the
      intervals, accounts, accounting and rating are those of the
      receiver. */
  lemma MergeLaw(ec: EventCharges, args: seq<Option<EventCharges>>)
    ensures Merge(ec, args).Ok? <==>
              && AllSet(args)
              && Summable(ec.abstracts, AbstractsOf(Values(args)))
              && Summable(ec.concretes, ConcretesOf(Values(args)))
    ensures Merge(ec, args).Ok? ==>
              && Merge(ec, args).value.abstracts == Total(ec.abstracts, AbstractsOf(Values(args)))
              && Merge(ec, args).value.concretes == Total(ec.concretes, ConcretesOf(Values(args)))
              && Merge(ec, args).value.chargingIntervals == ec.chargingIntervals
              && Merge(ec, args).value.accounts == ec.accounts
              && Merge(ec, args).value.accounting == ec.accounting
              && Merge(ec, args).value.rating == ec.rating
  {
    MergeSplits(ec, args);
    if AllSet(args) {
      assert Merge(ec, args) == Folded(ec, Values(args));
      FoldTotalLaw(ec.abstracts, AbstractsOf(Values(args)));
      FoldTotalLaw(ec.concretes, ConcretesOf(Values(args)));
    }
  }

  /** Merging into a fresh EventCharges: each total becomes the sum of the
      arguments' set totals, provided the unset ones all come first. */
  lemma MergeIntoNew(args: seq<EventCharges>)
    requires forall i, j :: 0 <= i < j < |args| && args[i].abstracts.Some? ==> args[j].abstracts.Some?
    requires forall i, j :: 0 <= i < j < |args| && args[i].concretes.Some? ==> args[j].concretes.Some?
    ensures var r := Merge(NewEventCharges(), seq(|args|, i requires 0 <= i < |args| => Some(args[i])));
            && r.Ok?
            && r.value.abstracts == Total(None, AbstractsOf(args))
            && r.value.concretes == Total(None, ConcretesOf(args))
  {
    var ptrs := seq(|args|, i requires 0 <= i < |args| => Some(args[i]));
    assert Values(ptrs) == args;
    MergeLaw(NewEventCharges(), ptrs);
  }

  /** EventCharges.Merge as the loop it is: each argument in turn is merged
      into the receiver, and a nil dereference ends the call. */
  method MergeInPlace(ec: EventCharges, args: seq<Option<EventCharges>>) returns (r: Result<EventCharges, Panic>)
    ensures r == Merge(ec, args)
    ensures r.Ok? ==> r.value.chargingIntervals == ec.chargingIntervals && r.value.accounts == ec.accounts
  {
    var cur := ec;
    var i := 0;
    while i < |args|
      invariant 0 <= i <= |args|
      invariant Merge(ec, args) == Merge(cur, args[i..])
      invariant cur.chargingIntervals == ec.chargingIntervals && cur.accounts == ec.accounts
    {
      var step := MergeOne(cur, args[i]);
      if step.Err? {
        return Err(step.error);
      }
      assert args[i..][1..] == args[i + 1..];
      cur := step.value;
      i := i + 1;
    }
    return Ok(cur);
  }
}
