/** What an order contributes, status by status, and what the figures of all orders then are. The texts
    of a contribution are compared with the order's own: exactly where these are in whole VND, and
    up to rounding otherwise. */
module OrderFigures {
  import opened Arith
  import opened Decimals
  import opened Contributions

  // ---- rounding

  /** The multiple of `factor` nearest to `x`; a half goes away from zero. */
  ghost predicate Nearest(x: int, y: int, factor: nat)
    requires factor > 0
  {
    && y % factor == 0 && 2 * Abs(x - y) <= factor
    && (2 * Abs(x - y) == factor ==> Abs(y) > Abs(x))
  }

  lemma RoundedIsNearest(abs: nat, factor: nat)
    requires factor > 0 && (factor == 1 || factor % 2 == 0)
    ensures Nearest(abs, Rounded(abs, factor) * factor, factor)
  {
    var h := factor / 2;
    var q := (abs + h) / factor;
    DivMod(abs + h, factor);
    assert factor * q == q * factor;
    DivMod(q * factor, factor);
    DivIs(q * factor, factor, q);
  }

  lemma NegatedIsNearest(x: int, y: int, factor: nat)
    requires factor > 0 && Nearest(x, y, factor)
    ensures Nearest(-x, -y, factor)
  {
    NegatedMultiple(y, factor);
  }

  lemma NegatedMultiple(y: int, factor: nat)
    requires factor > 0 && y % factor == 0
    ensures -y % factor == 0
  {
    var q := y / factor;
    DivMod(y, factor);
    assert factor * -q == -(factor * q);
    DivIs(-y, factor, -q);
    DivMod(-y, factor);
  }

  /** Printed text, read back, is the nearest number with that many decimals. */
  lemma TextIsNearest(x: int, decimals: nat)
    requires decimals <= 4
    ensures Pow10(4 - decimals) > 0 && Nearest(x, ParseScaled(FormatScaled(x, decimals)), Pow10(4 - decimals))
  {
    hide ParseScaled, FormatScaled, Rounded, Nearest;
    assert Pow10(0) == 1 && Pow10(1) == 10 && Pow10(2) == 100 && Pow10(3) == 1000 && Pow10(4) == UNIT;
    Contributions.ParseOfFormat(x, decimals);
    RoundedIsNearest(Abs(x), Pow10(4 - decimals));
    if x < 0 {
      NegatedIsNearest(Abs(x), Rounded(Abs(x), Pow10(4 - decimals)) * Pow10(4 - decimals), Pow10(4 - decimals));
    }
  }

  lemma NearestIsUnique(x: int, y: int, z: int, factor: nat)
    requires factor > 0 && Nearest(x, y, factor) && Nearest(x, z, factor)
    ensures y == z
  {
    if y != z {
      var low, high := Min(y, z), Max(y, z);
      MultiplesApart(low, high, factor);
      if low < 0 < high {
        MultiplesApart(low, 0, factor);
        MultiplesApart(0, high, factor);
      }
      OnlyOneHalf(x, low, high, factor);
    }
  }

  /** No number is nearest to two multiples on one side of zero. */
  lemma OnlyOneHalf(x: int, low: int, high: int, factor: nat)
    requires factor > 0 && low + factor <= high && (low < 0 < high ==> low + 2 * factor <= high)
    requires 2 * Abs(x - low) <= factor && (2 * Abs(x - low) == factor ==> Abs(low) > Abs(x))
    ensures !(2 * Abs(x - high) <= factor && (2 * Abs(x - high) == factor ==> Abs(high) > Abs(x)))
  {
  }

  lemma MultiplesApart(low: int, high: int, factor: nat)
    requires factor > 0 && low % factor == 0 && high % factor == 0 && low < high
    ensures low + factor <= high
  {
    DivMod(low, factor);
    DivMod(high, factor);
    MulApart(factor, low / factor, high / factor);
  }

  lemma MulApart(factor: nat, a: int, b: int)
    requires factor * a < factor * b
    ensures factor * a + factor <= factor * b
  {
    if b <= a {
      MulMono(factor, b, a);
    }
    MulMono(factor, a + 1, b);
    assert factor * (a + 1) == factor * a + factor;
  }

  // ---- one order

  /** Each figure of an order by its status: revenue, discount, cost and units count once it is completed,
      the merchandise value from its confirmation on, and money is in whole VND. */
  lemma TargetIs(o: Order)
    ensures var c, done := Target(o), o.status.Completed?;
            var subtotal, discount := ParseScaled(o.subtotal), ParseScaled(o.discount);
            && Nearest(if done || o.status.Confirmed? then subtotal else 0, At(c, Gmv), UNIT)
            && Nearest(if done then subtotal else 0, At(c, Gross), UNIT)
            && Nearest(if done then discount else 0, At(c, Discount), UNIT)
            && Nearest(if done then subtotal - discount else 0, At(c, Net), UNIT)
            && Nearest(if done then ParseScaled(o.cogs) else 0, At(c, Cogs), UNIT)
            && At(c, Units) == (if done then ParseScaled(o.units) else 0)
            && At(c, Orders) == 1 && At(c, CompletedOrders) == (if done then 1 else 0)
            && At(c, CancelledOrders) == (if o.status.Cancelled? then 1 else 0)
  {
    hide ParseScaled, FormatScaled, Nearest;
    assert Pow10(0) == 1 && Pow10(1) == 10 && Pow10(2) == 100 && Pow10(3) == 1000 && Pow10(4) == UNIT;
    var subtotal, discount := ParseScaled(o.subtotal), ParseScaled(o.discount);
    TextIsNearest(subtotal, 0);
    TextIsNearest(discount, 0);
    TextIsNearest(subtotal - discount, 0);
    TextIsNearest(ParseScaled(o.cogs), 0);
    TextIsNearest(0, 0);
    RoundTrip(ParseScaled(o.units), 4);
    RoundTrip(0, 4);
  }

  predicate WholeOrder(o: Order) { Whole(o.subtotal) && Whole(o.discount) && Whole(o.cogs) }

  /** In whole VND nothing is rounded, and net revenue is gross revenue less discount. */
  lemma WholeTargetIs(o: Order)
    requires WholeOrder(o)
    ensures var c, done := Target(o), o.status.Completed?;
            && At(c, Gmv) == (if done || o.status.Confirmed? then ParseScaled(o.subtotal) else 0)
            && At(c, Gross) == (if done then ParseScaled(o.subtotal) else 0)
            && At(c, Discount) == (if done then ParseScaled(o.discount) else 0)
            && At(c, Cogs) == (if done then ParseScaled(o.cogs) else 0)
            && At(c, Net) == At(c, Gross) - At(c, Discount)
  {
    hide ParseScaled, At, Target;
    TargetIs(o);
    var done := o.status.Completed?;
    var subtotal, discount := ParseScaled(o.subtotal), ParseScaled(o.discount);
    Exactly(if done || o.status.Confirmed? then subtotal else 0, At(Target(o), Gmv));
    Exactly(if done then subtotal else 0, At(Target(o), Gross));
    Exactly(if done then discount else 0, At(Target(o), Discount));
    Exactly(if done then subtotal - discount else 0, At(Target(o), Net));
    Exactly(if done then ParseScaled(o.cogs) else 0, At(Target(o), Cogs));
  }

  lemma Exactly(x: int, y: int)
    requires x % UNIT == 0 && Nearest(x, y, UNIT)
    ensures y == x
  {
    NearestIsUnique(x, y, x, UNIT);
  }

  /** With fractions, net revenue is still gross less discount to within one VND. */
  lemma NetIsWithinOne(o: Order)
    ensures var c := Target(o); Abs(At(c, Net) - (At(c, Gross) - At(c, Discount))) <= UNIT
  {
    hide ParseScaled, At, Target;
    TargetIs(o);
    var c := Target(o);
    WithinOne(ParseScaled(o.subtotal), ParseScaled(o.discount), At(c, Gross), At(c, Discount), At(c, Net));
    WithinOne(0, 0, At(c, Gross), At(c, Discount), At(c, Net));
  }

  lemma WithinOne(subtotal: int, discount: int, gross: int, less: int, net: int)
    ensures Nearest(subtotal, gross, UNIT) && Nearest(discount, less, UNIT) && Nearest(subtotal - discount, net, UNIT)
            ==> Abs(net - (gross - less)) <= UNIT
  {
    if Nearest(subtotal, gross, UNIT) && Nearest(discount, less, UNIT) && Nearest(subtotal - discount, net, UNIT) {
      var i, j, k := gross / UNIT, less / UNIT, net / UNIT;
      assert gross == UNIT * i && less == UNIT * j && net == UNIT * k;
      assert net - (gross - less) == UNIT * (k - (i - j));
      TwoIsTooMuch(k - (i - j), net - (gross - less));
    }
  }

  lemma TwoIsTooMuch(k: int, gap: int)
    requires gap == UNIT * k && 2 * Abs(gap) <= 3 * UNIT
    ensures Abs(gap) <= UNIT
  {
  }

  // ---- all orders

  /** Whatever is stored is the contribution of some event's order. */
  lemma {:induction false} FactsAreTargets(run: seq<Event>, id: string)
    requires id in Facts(run)
    ensures exists i :: 0 <= i < |run| && run[i].orderId == id && Facts(run)[id] == Target(run[i].order)
  {
    hide Target;
    var n := |run| - 1;
    if run[n].orderId == id {
      assert Facts(run)[id] == Target(run[n].order);
    } else {
      FactsAreTargets(run[..n], id);
      var i :| 0 <= i < n && run[..n][i].orderId == id && Facts(run[..n])[id] == Target(run[..n][i].order);
      assert run[i].orderId == id && Facts(run)[id] == Target(run[i].order);
    }
  }

  /** One event moves each figure from what the order contributed before to what it contributes now. */
  lemma FigureStep(run: seq<Event>, f: Field)
    requires run != []
    ensures var n := |run| - 1;
            Figure(run, f) == Figure(run[..n], f) + At(Target(run[n].order), f) - Before(Previous(run[..n], run[n].orderId), f)
  {
    hide At, Target, Delta, IsZero, WholeMoney, Before;
    var n := |run| - 1;
    var target, previous := Target(run[n].order), Previous(run[..n], run[n].orderId);
    FactsAreWhole(run[..n]);
    TargetIsWhole(run[n].order);
    DeltaIsExact(target, previous, f);
    if IsZero(Delta(target, previous)) {
      ZeroInEveryField(Delta(target, previous));
    }
  }

  /** Over any run of orders in whole VND, in any states and with any changes: net revenue is gross revenue
      less discounts. */
  lemma {:induction false} NetFigure(run: seq<Event>)
    requires forall i :: 0 <= i < |run| ==> WholeOrder(run[i].order)
    ensures Figure(run, Net) == Figure(run, Gross) - Figure(run, Discount)
  {
    hide At, Target, WholeOrder, Facts;
    if run != [] {
      var n := |run| - 1;
      NetFigure(run[..n]);
      FigureStep(run, Net);
      FigureStep(run, Gross);
      FigureStep(run, Discount);
      WholeTargetIs(run[n].order);
      var id := run[n].orderId;
      if id in Facts(run[..n]) {
        FactsAreTargets(run[..n], id);
        var i :| 0 <= i < n && run[..n][i].orderId == id && Facts(run[..n])[id] == Target(run[..n][i].order);
        assert WholeOrder(run[i].order);
        WholeTargetIs(run[i].order);
      }
    } else {
      NoFigures();
    }
  }

  lemma NoFigures()
    ensures forall f :: Figure([], f) == 0
  {
  }

  /** The orders whose last event has left them in that status. */
  function Now(run: seq<Event>, wanted: Status): set<string> {
    if run == [] then {}
    else
      var n := |run| - 1;
      if run[n].order.status == wanted then Now(run[..n], wanted) + {run[n].orderId} else Now(run[..n], wanted) - {run[n].orderId}
  }

  lemma {:induction false} NowIs(run: seq<Event>, wanted: Status, i: nat)
    requires i < |run| && forall j :: i < j < |run| ==> run[j].orderId != run[i].orderId
    ensures run[i].orderId in Now(run, wanted) <==> run[i].order.status == wanted
  {
    if i < |run| - 1 {
      NowIs(run[..|run| - 1], wanted, i);
    }
  }

  /** Before an event the order's stored contribution counts it exactly if it was in that status. */
  lemma {:induction false} CountedBefore(run: seq<Event>, id: string)
    ensures id in Facts(run) ==> At(Facts(run)[id], Orders) == 1
    ensures id in Facts(run) ==> At(Facts(run)[id], CompletedOrders) == if id in Now(run, Completed) then 1 else 0
    ensures id in Facts(run) ==> At(Facts(run)[id], CancelledOrders) == if id in Now(run, Cancelled) then 1 else 0
    ensures id !in Facts(run) ==> id !in Now(run, Completed) && id !in Now(run, Cancelled)
  {
    hide At, Target;
    if run != [] {
      var n := |run| - 1;
      CountedBefore(run[..n], id);
      TargetIs(run[n].order);
    }
  }

  lemma StatusStep(run: seq<Event>, f: Field, wanted: Status)
    requires run != [] && ((f == CompletedOrders && wanted == Completed) || (f == CancelledOrders && wanted == Cancelled))
    ensures var front := run[..|run| - 1];
            Figure(run, f) - Figure(front, f) == |Now(run, wanted)| - |Now(front, wanted)|
  {
    hide At, Target, Figure, Facts;
    var n := |run| - 1;
    var id := run[n].orderId;
    CountedBefore(run[..n], id);
    TargetIs(run[n].order);
    FigureStep(run, f);
    OneMoreOrLess(Now(run[..n], wanted), id);
  }

  lemma OrdersStep(run: seq<Event>)
    requires run != []
    ensures var front := run[..|run| - 1];
            Figure(run, Orders) - Figure(front, Orders) == |Facts(run).Keys| - |Facts(front).Keys|
  {
    hide At, Target, Figure, Now;
    var n := |run| - 1;
    var id := run[n].orderId;
    CountedBefore(run[..n], id);
    TargetIs(run[n].order);
    FigureStep(run, Orders);
    OneMoreOrLess(Facts(run[..n]).Keys, id);
    assert Facts(run).Keys == Facts(run[..n]).Keys + {id};
  }

  /** The counts are numbers of orders: all seen, those now completed, and those now cancelled. */
  lemma {:induction false} CountsAreOrders(run: seq<Event>)
    ensures Figure(run, Orders) == |Facts(run).Keys|
    ensures Figure(run, CompletedOrders) == |Now(run, Completed)| && Figure(run, CancelledOrders) == |Now(run, Cancelled)|
  {
    hide At, Target;
    if run == [] {
      NoFigures();
    } else {
      hide Figure, Facts, Now;
      CountsAreOrders(run[..|run| - 1]);
      OrdersStep(run);
      StatusStep(run, CompletedOrders, Completed);
      StatusStep(run, CancelledOrders, Cancelled);
    }
  }

  lemma OneMoreOrLess(s: set<string>, x: string)
    ensures |s + {x}| == |s| + (if x in s then 0 else 1)
    ensures |s - {x}| == |s| - (if x in s then 1 else 0)
  {
    if x in s {
      assert s + {x} == s && s == (s - {x}) + {x};
    } else {
      assert s - {x} == s;
    }
  }

  // ---- reading text

  /** More than four decimals are rounded by the fifth, the rest is ignored. */
  lemma LongFraction(whole: string, frac: string)
    requires AllDigits(whole) && AllDigits(frac) && |frac| >= 5
    ensures AllDigits(frac[..5]) && ParseUnsigned(whole + "." + frac) == Value(whole) * UNIT + (Value(frac[..5]) + 5) / 10
  {
    hide IndexOf, Digits, Value;
    var body := whole + "." + frac;
    assert body[..|whole|] == whole && body[|whole| + 1..] == frac;
    IndexOfUnique(body, '.', |whole|);
    NoDotInDigits(frac);
    assert frac[..|frac|] == frac;
    var padded := frac + Zeros(5);
    assert padded[..4] == frac[..4] && padded[4] == frac[4];
    FifthDigit(frac);
  }

  lemma FifthDigit(frac: string)
    requires AllDigits(frac) && |frac| >= 5
    ensures AllDigits(frac[..5]) && AllDigits(frac[..4]) && Value(frac[..5]) == 10 * Value(frac[..4]) + DigitValue(frac[4])
  {
    assert frac[..5][..4] == frac[..4];
  }

  /** A sign in front negates or does nothing. */
  lemma SignedText(sign: string, body: string)
    requires sign == "" || sign == "+" || sign == "-"
    requires body != "" && IsDigit(body[0]) && !IsSpace(body[|body| - 1])
    ensures ParseScaled(sign + body) == (if sign == "-" then -1 else 1) * ParseUnsigned(body)
  {
    hide ParseUnsigned, IsSpace;
    NotSpace(body[0]);
    NotSpace('-');
    PlusIsNoSpace();
    assert sign != "" ==> (sign + body)[1..] == body;
    Untrimmed(sign + body);
    Untrimmed(body);
    assert sign == "" ==> sign + body == body;
  }

  lemma PlusIsNoSpace()
    ensures !IsSpace('+')
  {
  }

  /** Empty text and "NaN" count as nothing. */
  lemma NothingSaid(text: string)
    requires Trim(text) == "" || Trim(text) == "NaN"
    ensures ParseScaled(text) == 0
  {
  }

  lemma Untrimmed(s: string)
    requires s != "" && !IsSpace(s[0]) && !IsSpace(s[|s| - 1])
    ensures Trim(s) == s
  {
  }

  /** Characters that are no digits are passed over. */
  lemma {:induction false} DigitsAre(s: string, t: string)
    ensures Digits(s + t) == Digits(s) + Digits(t)
  {
    hide IsDigit, AllDigits;
    if s == "" {
      assert s + t == t;
    } else {
      assert (s + t)[0] == s[0] && (s + t)[1..] == s[1..] + t;
      DigitsAre(s[1..], t);
    }
  }

  lemma {:induction false} NoDigits(s: string)
    requires forall i :: 0 <= i < |s| ==> !IsDigit(s[i])
    ensures Digits(s) == ""
  {
    hide IsDigit, AllDigits;
    if s != "" {
      NoDigits(s[1..]);
    }
  }

  /** Without anything received the average stays; without stock it is the price paid. */
  lemma AverageAtTheEdges(onHand: string, avg: string, qty: string, cost: string, decimals: nat)
    requires decimals <= 4
    ensures Pow10(4 - decimals) > 0
    ensures var r := ParseScaled(InsightAverage(onHand, avg, qty, cost, decimals));
            && (ParseScaled(qty) <= 0 ==> Nearest(ParseScaled(avg), r, Pow10(4 - decimals)))
            && (ParseScaled(qty) > 0 && ParseScaled(onHand) <= 0 ==> Nearest(ParseScaled(cost), r, Pow10(4 - decimals)))
  {
    hide ParseScaled, FormatScaled, Nearest;
    TextIsNearest(ParseScaled(avg), decimals);
    TextIsNearest(ParseScaled(cost), decimals);
  }
}
