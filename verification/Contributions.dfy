/** Order contributions to the sales figures, and the average cost they use.

    All figures travel as decimal text; inside they are ten-thousandths. Money is printed in whole VND,
    quantities with four decimals. */
module Contributions {
  import opened Arith
  import opened Decimals
  import Costing
  import Sums

  const UNIT := 10000

  // ---- decimal text with up to four decimals

  /** `replace(/[^0-9]/g, '')` */
  function Digits(s: string): (r: string)
    ensures AllDigits(r)
    ensures AllDigits(s) ==> r == s
  {
    if s == "" then "" else (if IsDigit(s[0]) then [s[0]] else []) + Digits(s[1..])
  }

  /** `parseScaledDecimal` of text; a missing value counts as empty text. */
  function ParseScaled(text: string): int {
    var raw := Trim(text);
    if raw == "" || raw == "NaN" then 0 else
      var negative := raw[0] == '-';
      var body := if negative || raw[0] == '+' then Trim(raw[1..]) else raw;
      var abs: int := ParseUnsigned(body);
      if negative then -abs else abs
  }

  function ParseUnsigned(body: string): nat {
    var dot := IndexOf(body, '.');
    var whole := Digits(body[..dot]);
    var tail := if dot < |body| then body[dot + 1..] else "";
    var padded := Digits(tail[..IndexOf(tail, '.')]) + Zeros(5);
    Value(whole) * UNIT + Value(padded[..4]) + if DigitValue(padded[4]) >= 5 then 1 else 0
  }

  function Abs(x: int): nat { if x < 0 then -x else x }

  /** Half away from zero, to a multiple of `factor`, counted in `factor`s. */
  function Rounded(abs: nat, factor: nat): nat
    requires factor > 0
  {
    (abs + factor / 2) / factor
  }

  /** `formatScaledDecimal` */
  function FormatScaled(scaled: int, decimals: nat): string
    requires decimals <= 4
  {
    var rounded := Rounded(Abs(scaled), Pow10(4 - decimals));
    (if scaled < 0 && rounded > 0 then "-" else "") + FormatUnsigned(rounded, decimals)
  }

  function FormatUnsigned(rounded: nat, decimals: nat): string {
    if decimals == 0 then Print(rounded)
    else
      var scale := Pow10(decimals);
      Print(Quotient(rounded, scale)) + "." + PadStart(Print(Remainder(rounded, scale)), decimals)
  }

  lemma {:induction false} TrailingZeros(s: string, k: nat)
    requires AllDigits(s)
    ensures AllDigits(s + Zeros(k)) && Value(s + Zeros(k)) == Value(s) * Pow10(k)
    decreases k
  {
    hide Value, Zeros;
    if k == 0 {
      assert s + Zeros(0) == s;
    } else {
      TrailingZeros(s, k - 1);
      OneZeroMore(s, k);
      TenTimes(Value(s), Pow10(k - 1));
    }
  }

  lemma OneZeroMore(s: string, k: nat)
    requires AllDigits(s) && k > 0
    ensures AllDigits(s + Zeros(k)) && Value(s + Zeros(k)) == 10 * Value(s + Zeros(k - 1))
  {
    var t := s + Zeros(k);
    assert t[..|t| - 1] == s + Zeros(k - 1);
  }

  lemma TenTimes(a: nat, b: nat)
    ensures 10 * (a * b) == a * (10 * b)
  {
  }

  /** Digits, and possibly a dot and at most four more digits, parse to what they say. */
  lemma UnsignedText(whole: string, frac: string, body: string)
    requires AllDigits(whole) && AllDigits(frac) && |frac| <= 4
    requires body == if frac == "" then whole else whole + "." + frac
    ensures ParseUnsigned(body) == Value(whole) * UNIT + Value(frac) * Pow10(4 - |frac|)
  {
    hide Value, Pow10, IndexOf, Digits;
    NoDotInDigits(frac);
    assert frac[..|frac|] == frac;
    if frac == "" {
      NoDotInDigits(whole);
      assert body[..|body|] == whole;
    } else {
      assert body[..|whole|] == whole && body[|whole| + 1..] == frac;
      IndexOfUnique(body, '.', |whole|);
    }
    PaddedFraction(frac);
  }

  lemma NoDotInDigits(s: string)
    requires AllDigits(s)
    ensures IndexOf(s, '.') == |s|
  {
    assert forall i :: 0 <= i < |s| ==> s[i] != '.';
  }

  lemma PaddedFraction(frac: string)
    requires AllDigits(frac) && |frac| <= 4
    ensures var padded := frac + Zeros(5);
            AllDigits(padded[..4]) && Value(padded[..4]) == Value(frac) * Pow10(4 - |frac|) && padded[4] == '0'
  {
    hide Value, Pow10;
    assert (frac + Zeros(5))[..4] == frac + Zeros(4 - |frac|);
    TrailingZeros(frac, 4 - |frac|);
  }

  lemma UnsignedRoundTrip(rounded: nat, decimals: nat)
    requires decimals <= 4
    ensures ParseUnsigned(FormatUnsigned(rounded, decimals)) == rounded * Pow10(4 - decimals)
  {
    hide Value, ParseUnsigned, PadStart;
    assert Pow10(0) == 1 && Pow10(1) == 10 && Pow10(2) == 100 && Pow10(3) == 1000 && Pow10(4) == UNIT;
    if decimals == 0 {
      ValueOfPrint(rounded);
      EmptyValue();
      UnsignedText(Print(rounded), "", FormatUnsigned(rounded, 0));
    } else {
      var ip, fp := Quotient(rounded, Pow10(decimals)), Remainder(rounded, Pow10(decimals));
      ValueOfPrint(ip);
      FractionDigits(fp, decimals);
      UnsignedText(Print(ip), PadStart(Print(fp), decimals), FormatUnsigned(rounded, decimals));
    }
  }

  lemma EmptyValue()
    ensures Value("") == 0
  {
  }

  lemma FractionDigits(r: nat, width: nat)
    requires width > 0 && r < Pow10(width)
    ensures var f := PadStart(Print(r), width); |f| == width && AllDigits(f) && Value(f) == r
  {
    PrintWidth(r, width);
    LeadingZeros(width - |Print(r)|, Print(r));
    ValueOfPrint(r);
  }

  /** Parsing printed text gives the number rounded half away from zero to that many decimals. */
  lemma ParseOfFormat(scaled: int, decimals: nat)
    requires decimals <= 4
    ensures var r := Rounded(Abs(scaled), Pow10(4 - decimals)) * Pow10(4 - decimals);
            ParseScaled(FormatScaled(scaled, decimals)) == if scaled < 0 then -r else r
  {
    hide ParseUnsigned, FormatUnsigned, IsSpace;
    var rounded := Rounded(Abs(scaled), Pow10(4 - decimals));
    var body := FormatUnsigned(rounded, decimals);
    UnsignedRoundTrip(rounded, decimals);
    DigitEnds(rounded, decimals);
    NotSpace(body[0]);
    NotSpace(body[|body| - 1]);
    NotSpace('-');
    assert Trim(body) == body;
    var text := FormatScaled(scaled, decimals);
    if scaled < 0 && rounded > 0 {
      assert text == "-" + body && text[1..] == body;
      assert Trim(text) == text;
    } else {
      assert text == body;
    }
  }

  lemma DigitEnds(rounded: nat, decimals: nat)
    requires decimals <= 4
    ensures var body := FormatUnsigned(rounded, decimals);
            body != "" && IsDigit(body[0]) && IsDigit(body[|body| - 1])
  {
    hide Value;
    if decimals > 0 {
      FractionDigits(Remainder(rounded, Pow10(decimals)), decimals);
    }
  }

  /** Every multiple of the last printed place survives. */
  lemma RoundTrip(scaled: int, decimals: nat)
    requires decimals <= 4 && scaled % Pow10(4 - decimals) == 0
    ensures ParseScaled(FormatScaled(scaled, decimals)) == scaled
  {
    hide ParseScaled, FormatScaled;
    ParseOfFormat(scaled, decimals);
    RoundedExactly(scaled, Pow10(4 - decimals));
  }

  lemma RoundedExactly(scaled: int, factor: nat)
    requires factor > 0 && scaled % factor == 0
    ensures Rounded(Abs(scaled), factor) * factor == Abs(scaled)
  {
    DivMod(scaled, factor);
    var k := scaled / factor;
    hide Rounded;
    AbsOfProduct(factor, k);
    RoundedMultiple(factor, Abs(k), Abs(scaled));
  }

  lemma AbsOfProduct(factor: nat, k: int)
    ensures Abs(factor * k) == factor * Abs(k)
  {
    assert factor * -k == -(factor * k);
    if k < 0 {
      MulMono(factor, k, 0);
    }
  }

  lemma RoundedMultiple(factor: nat, q: nat, m: nat)
    requires factor > 0 && m == factor * q
    ensures Rounded(m, factor) * factor == m
  {
    DivIs(m + factor / 2, factor, q);
  }

  // ---- contributions

  datatype Status = Completed | Confirmed | Cancelled | Other

  datatype Order = Order(status: Status, subtotal: string, discount: string, cogs: string, units: string)

  datatype Contribution = Contribution(gmv: string, gross: string, discount: string, net: string, cogs: string,
                                       units: string, orders: int, completed: int, cancelled: int)

  /** `computeTargetOrderContribution` */
  function Target(o: Order): Contribution {
    var subtotal, discount := ParseScaled(o.subtotal), ParseScaled(o.discount);
    var zero := FormatScaled(0, 0);
    match o.status
    case Completed =>
      Contribution(FormatScaled(subtotal, 0), FormatScaled(subtotal, 0), FormatScaled(discount, 0),
                   FormatScaled(subtotal - discount, 0), FormatScaled(ParseScaled(o.cogs), 0),
                   FormatScaled(ParseScaled(o.units), 4), 1, 1, 0)
    case Confirmed =>
      Contribution(FormatScaled(subtotal, 0), zero, zero, zero, zero, FormatScaled(0, 4), 1, 0, 0)
    case Cancelled =>
      Contribution(zero, zero, zero, zero, zero, FormatScaled(0, 4), 1, 0, 1)
    case Other =>
      Contribution(zero, zero, zero, zero, zero, FormatScaled(0, 4), 1, 0, 0)
  }

  const NOTHING := Contribution("", "", "", "", "", "", 0, 0, 0)

  function Difference(target: string, previous: string, decimals: nat): string
    requires decimals <= 4
  {
    FormatScaled(ParseScaled(target) - ParseScaled(previous), decimals)
  }

  /** `computeOrderContributionDelta`; an order not seen before has contributed nothing. */
  function Delta(target: Contribution, previous: Option<Contribution>): Contribution {
    var p := if previous.Some? then previous.value else NOTHING;
    Contribution(Difference(target.gmv, p.gmv, 0), Difference(target.gross, p.gross, 0),
                 Difference(target.discount, p.discount, 0), Difference(target.net, p.net, 0),
                 Difference(target.cogs, p.cogs, 0), Difference(target.units, p.units, 4),
                 target.orders - p.orders, target.completed - p.completed, target.cancelled - p.cancelled)
  }

  datatype Field = Gmv | Gross | Discount | Net | Cogs | Units | Orders | CompletedOrders | CancelledOrders

  /** What a contribution says in one field. */
  function At(c: Contribution, f: Field): int {
    match f
    case Gmv => ParseScaled(c.gmv)
    case Gross => ParseScaled(c.gross)
    case Discount => ParseScaled(c.discount)
    case Net => ParseScaled(c.net)
    case Cogs => ParseScaled(c.cogs)
    case Units => ParseScaled(c.units)
    case Orders => c.orders
    case CompletedOrders => c.completed
    case CancelledOrders => c.cancelled
  }

  /** `isZeroContributionDelta` */
  predicate IsZero(delta: Contribution) {
    && ParseScaled(delta.gmv) == 0 && ParseScaled(delta.gross) == 0 && ParseScaled(delta.discount) == 0
    && ParseScaled(delta.net) == 0 && ParseScaled(delta.cogs) == 0 && ParseScaled(delta.units) == 0
    && delta.orders == 0 && delta.completed == 0 && delta.cancelled == 0
  }

  /** Money text in whole VND. */
  predicate Whole(s: string) { ParseScaled(s) % UNIT == 0 }

  predicate WholeMoney(c: Contribution) {
    Whole(c.gmv) && Whole(c.gross) && Whole(c.discount) && Whole(c.net) && Whole(c.cogs)
  }

  lemma FormattedIsWhole(x: int)
    ensures Whole(FormatScaled(x, 0))
  {
    hide ParseScaled, FormatScaled;
    assert Pow10(0) == 1 && Pow10(1) == 10 && Pow10(2) == 100 && Pow10(3) == 1000 && Pow10(4) == UNIT;
    ParseOfFormat(x, 0);
  }

  lemma TargetIsWhole(o: Order)
    ensures WholeMoney(Target(o))
  {
    hide ParseScaled, FormatScaled, Whole;
    var subtotal, discount := ParseScaled(o.subtotal), ParseScaled(o.discount);
    FormattedIsWhole(subtotal);
    FormattedIsWhole(discount);
    FormattedIsWhole(subtotal - discount);
    FormattedIsWhole(ParseScaled(o.cogs));
    FormattedIsWhole(0);
  }

  lemma DifferenceIsExact(target: string, previous: string, decimals: nat)
    requires decimals == 4 || (decimals == 0 && Whole(target) && Whole(previous))
    ensures ParseScaled(Difference(target, previous, decimals)) == ParseScaled(target) - ParseScaled(previous)
  {
    hide ParseScaled, FormatScaled;
    assert Pow10(0) == 1 && Pow10(1) == 10 && Pow10(2) == 100 && Pow10(3) == 1000 && Pow10(4) == UNIT;
    RoundTrip(ParseScaled(target) - ParseScaled(previous), decimals);
  }

  function Before(previous: Option<Contribution>, f: Field): int {
    if previous.Some? then At(previous.value, f) else 0
  }

  lemma ParseOfEmpty()
    ensures ParseScaled("") == 0
  {
  }

  /** A delta says, in every field, exactly target less previous. */
  lemma DeltaIsExact(target: Contribution, previous: Option<Contribution>, f: Field)
    requires WholeMoney(target) && (previous.Some? ==> WholeMoney(previous.value))
    ensures At(Delta(target, previous), f) == At(target, f) - Before(previous, f)
  {
    hide ParseScaled, FormatScaled, Difference;
    ParseOfEmpty();
    var p := if previous.Some? then previous.value else NOTHING;
    DifferenceIsExact(target.gmv, p.gmv, 0);
    DifferenceIsExact(target.gross, p.gross, 0);
    DifferenceIsExact(target.discount, p.discount, 0);
    DifferenceIsExact(target.net, p.net, 0);
    DifferenceIsExact(target.cogs, p.cogs, 0);
    DifferenceIsExact(target.units, p.units, 4);
  }

  /** An event that leaves an order's contribution as it was gives a zero delta, and only such a one. */
  lemma ZeroDeltaIff(target: Contribution, previous: Option<Contribution>)
    requires WholeMoney(target) && (previous.Some? ==> WholeMoney(previous.value))
    ensures IsZero(Delta(target, previous)) <==> forall f :: At(target, f) == Before(previous, f)
  {
    hide ParseScaled, FormatScaled, Difference, WholeMoney, Delta;
    forall f: Field
      ensures At(Delta(target, previous), f) == At(target, f) - Before(previous, f)
    {
      DeltaIsExact(target, previous, f);
    }
    ZeroInEveryField(Delta(target, previous));
  }

  lemma ZeroInEveryField(c: Contribution)
    ensures IsZero(c) <==> forall f :: At(c, f) == 0
  {
    hide ParseScaled;
    if forall f :: At(c, f) == 0 {
      assert At(c, Gmv) == 0 && At(c, Gross) == 0 && At(c, Discount) == 0 && At(c, Net) == 0 && At(c, Cogs) == 0;
      assert At(c, Units) == 0 && At(c, Orders) == 0 && At(c, CompletedOrders) == 0 && At(c, CancelledOrders) == 0;
    }
  }

  // ---- all orders of a tenant, in one run of events

  datatype Event = Event(orderId: string, order: Order)

  /** The contribution stored for each order. */
  function Facts(run: seq<Event>): map<string, Contribution> {
    if run == [] then map[]
    else Facts(run[..|run| - 1])[run[|run| - 1].orderId := Target(run[|run| - 1].order)]
  }

  function Previous(run: seq<Event>, id: string): Option<Contribution> {
    if id in Facts(run) then Some(Facts(run)[id]) else None
  }

  /** The figure kept for one field: deltas are added up, zero deltas are not even applied. */
  function Figure(run: seq<Event>, f: Field): int {
    if run == [] then 0
    else
      var before, e := run[..|run| - 1], run[|run| - 1];
      var delta := Delta(Target(e.order), Previous(before, e.orderId));
      Figure(before, f) + if IsZero(delta) then 0 else At(delta, f)
  }

  /** The last event of an order decides what is stored for it. */
  lemma {:induction false} FactsHoldTheLast(run: seq<Event>, i: nat)
    requires i < |run| && forall j :: i < j < |run| ==> run[j].orderId != run[i].orderId
    ensures run[i].orderId in Facts(run) && Facts(run)[run[i].orderId] == Target(run[i].order)
  {
    if i < |run| - 1 {
      FactsHoldTheLast(run[..|run| - 1], i);
    }
  }

  lemma {:induction false} FactsAreWhole(run: seq<Event>)
    ensures forall id :: id in Facts(run) ==> WholeMoney(Facts(run)[id])
  {
    hide Target, WholeMoney;
    if run != [] {
      FactsAreWhole(run[..|run| - 1]);
      TargetIsWhole(run[|run| - 1].order);
    }
  }

  ghost function Recomputed(facts: map<string, Contribution>, f: Field): int {
    Sums.Sum(map id | id in facts :: At(facts[id], f))
  }

  lemma {:induction false} FiguresAreTheRecount(run: seq<Event>, f: Field)
    ensures Figure(run, f) == Recomputed(Facts(run), f)
  {
    hide At, IsZero, Target, Delta, Sums.Sum, WholeMoney, Before;
    if run == [] {
      NothingRecounted(Facts(run), f);
    } else {
      var before, e := run[..|run| - 1], run[|run| - 1];
      FiguresAreTheRecount(before, f);
      FactsAreWhole(before);
      TargetIsWhole(e.order);
      var target, previous := Target(e.order), Previous(before, e.orderId);
      DeltaIsExact(target, previous, f);
      RecountStep(Facts(before), e.orderId, target, f);
      if IsZero(Delta(target, previous)) {
        ZeroInEveryField(Delta(target, previous));
      }
    }
  }

  lemma NothingRecounted(facts: map<string, Contribution>, f: Field)
    ensures facts.Keys == {} ==> Recomputed(facts, f) == 0
  {
    var m := map id | id in facts :: At(facts[id], f);
    assert m.Keys == facts.Keys;
    Sums.OfNone(m);
  }

  lemma RecountStep(facts: map<string, Contribution>, id: string, target: Contribution, f: Field)
    ensures Recomputed(facts[id := target], f)
            == Recomputed(facts, f) + At(target, f) - Before(if id in facts then Some(facts[id]) else None, f)
  {
    hide At, Sums.Sum;
    var m := map k | k in facts :: At(facts[k], f);
    var after := facts[id := target];
    assert (map k | k in after :: At(after[k], f)) == m[id := At(target, f)];
    Sums.Write(m, id, At(target, f));
  }

  // ---- the average cost, here and in the stock service

  /** `computeWeightedAverageCost` */
  function InsightAverage(onHandText: string, avgText: string, qtyText: string, costText: string, decimals: nat): string
    requires decimals <= 4
  {
    var onHand, avg := ParseScaled(onHandText), ParseScaled(avgText);
    var qty, cost := ParseScaled(qtyText), ParseScaled(costText);
    if qty <= 0 then FormatScaled(avg, decimals)
    else if onHand <= 0 then FormatScaled(cost, decimals)
    else FormatScaled((onHand * avg + qty * cost + (onHand + qty) / 2) / (onHand + qty), decimals)
  }

  /** Three-decimal and whole numbers print alike in both services. */
  lemma QuantityText(q: nat)
    ensures ParseScaled(FormatMilli(q)) == 10 * q
  {
    hide ParseScaled, PadStart;
    assert Pow10(0) == 1 && Pow10(1) == 10 && Pow10(2) == 100 && Pow10(3) == 1000 && Pow10(4) == UNIT;
    RoundTrip(10 * q, 3);
    assert FormatScaled(10 * q, 3) == FormatMilli(q);
  }

  lemma MoneyText(n: nat)
    ensures FormatScaled(n * UNIT, 0) == Print(n) && ParseScaled(Print(n)) == n * UNIT
  {
    hide ParseScaled, FormatScaled, Print;
    assert Pow10(0) == 1 && Pow10(1) == 10 && Pow10(2) == 100 && Pow10(3) == 1000 && Pow10(4) == UNIT;
    RoundTrip(n * UNIT, 0);
    WholeText(n * UNIT);
    DivIs(n * UNIT + UNIT / 2, UNIT, n);
  }

  /** Does rounding first to a ten-thousandth carry the average over the half? */
  predicate CarriesOver(total: int, n: int)
    requires n > 0
  {
    9999 * n <= 20000 * (total % n) < 10000 * n
  }

  /** Rounding twice, in ten-thousandths and then to whole VND, against rounding once. */
  lemma RoundingTwice(total: nat, n: nat)
    requires n > 0
    ensures var fine := (100000 * total + 10 * n / 2) / (10 * n);
            fine >= 0 && Rounded(fine, UNIT) == Costing.RoundDiv(total, n) + if CarriesOver(total, n) then 1 else 0
  {
    hide Costing.RoundDiv;
    var a, r := total / n, total % n;
    DivMod(total, n);
    var b := Tenths(r, n);
    FineValue(total, n, a, r, b);
    OnceRounded(total, n, a, r);
    assert (UNIT * a + b + UNIT / 2) / UNIT == if b >= 5000 then a + 1 else a;
  }

  /** The fraction in ten-thousandths, rounded. */
  lemma Tenths(r: nat, n: nat) returns (b: nat)
    requires r < n
    ensures 2 * n * b <= 20000 * r + n < 2 * n * b + 2 * n
    ensures b <= 10000 && (b >= 5000 <==> 20000 * r >= 9999 * n)
  {
    var m := 20000 * r + n;
    var q := m / (2 * n);
    DivMod(m, 2 * n);
    BoundedBy(q, n, m);
    HalfReached(q, n, m);
    b := q;
  }

  lemma FineValue(total: nat, n: nat, a: nat, r: nat, b: int)
    requires n > 0 && total == n * a + r
    requires 2 * n * b <= 20000 * r + n < 2 * n * b + 2 * n
    ensures (100000 * total + 10 * n / 2) / (10 * n) == UNIT * a + b
  {
    var d := 10 * n;
    assert d * (UNIT * a + b) == 100000 * (n * a) + 5 * (2 * n * b);
    assert 10 * n / 2 == 5 * n;
    DivIs(100000 * total + 5 * n, d, UNIT * a + b);
  }

  lemma BoundedBy(b: int, n: nat, m: nat)
    requires n > 0 && 2 * n * b <= m < 2 * n * b + 2 * n && m <= 20001 * n
    ensures 0 <= b <= 10000
  {
    assert 2 * n * (b + 1) == 2 * n * b + 2 * n;
    if b < 0 {
      MulMono(2 * n, b + 1, 0);
    }
    if b > 10000 {
      MulMono(2 * n, 10001, b);
    }
  }

  lemma HalfReached(b: int, n: nat, m: nat)
    requires n > 0 && 2 * n * b <= m < 2 * n * b + 2 * n
    ensures b >= 5000 <==> m >= 10000 * n
  {
    if b >= 5000 {
      MulMono(2 * n, 5000, b);
    } else {
      MulMono(2 * n, b + 1, 5000);
      assert 2 * n * (b + 1) == 2 * n * b + 2 * n;
    }
  }

  lemma OnceRounded(total: nat, n: nat, a: nat, r: nat)
    requires n > 0 && total == n * a + r && r < n
    ensures Costing.RoundDiv(total, n) == if 2 * r >= n then a + 1 else a
  {
    var q := if 2 * r >= n then a + 1 else a;
    assert n * (a + 1) == n * a + n;
    DivIs(total + n / 2, n, q);
  }

  /** On the same stock and receipt, insight's average is inventory's or exactly one VND more, and it
      is more exactly when the fraction lies within half a ten-thousandth below one half. */
  lemma AveragesAgreeOrDifferByOne(onHand: nat, avg: nat, qty: nat, cost: nat)
    requires qty > 0
    ensures var once := Costing.NewAverage(onHand, avg, qty, cost);
            InsightAverage(FormatMilli(onHand), Print(avg), FormatMilli(qty), Print(cost), 0)
            == Print(if CarriesOver(onHand * avg + qty * cost, onHand + qty) && onHand > 0 then once + 1 else once)
  {
    hide ParseScaled, FormatMilli, Print, CarriesOver, FormatScaled;
    QuantityText(onHand);
    QuantityText(qty);
    MoneyText(avg);
    MoneyText(cost);
    var total, n := onHand * avg + qty * cost, onHand + qty;
    if onHand == 0 {
      OnceRounded(qty * cost, qty, cost, 0);
    } else {
      RoundingTwice(total, n);
      FineTotal(onHand, avg, qty, cost);
      var fine := (100000 * total + 10 * n / 2) / (10 * n);
      WholeText(fine);
    }
  }

  lemma FineTotal(onHand: nat, avg: nat, qty: nat, cost: nat)
    ensures 10 * onHand * (avg * UNIT) + 10 * qty * (cost * UNIT) == 100000 * (onHand * avg + qty * cost)
  {
    assert 10 * onHand * (avg * UNIT) == 100000 * (onHand * avg);
    assert 10 * qty * (cost * UNIT) == 100000 * (qty * cost);
  }

  lemma WholeText(fine: nat)
    ensures FormatScaled(fine, 0) == Print(Rounded(fine, UNIT))
  {
    assert Pow10(0) == 1 && Pow10(1) == 10 && Pow10(2) == 100 && Pow10(3) == 1000 && Pow10(4) == UNIT;
  }

  /** At least 5.000 units at 1 VND on top of one thousandth more for nothing: inventory says 0, insight 1. */
  lemma OneVndMore(m: nat)
    requires m >= 5000
    ensures Costing.NewAverage(m + 1, 0, m, 1) == 0
    ensures InsightAverage(FormatMilli(m + 1), Print(0), FormatMilli(m), Print(1), 0) == Print(1)
  {
    hide ParseScaled, FormatMilli, Print, InsightAverage, Costing.NewAverage, CarriesOver;
    AveragesAgreeOrDifferByOne(m + 1, 0, m, 1);
    HalfMissed(m);
  }

  lemma HalfMissed(m: nat)
    requires m >= 5000
    ensures Costing.NewAverage(m + 1, 0, m, 1) == 0 && CarriesOver((m + 1) * 0 + m * 1, m + 1 + m)
  {
    DivIs(m + (2 * m + 1) / 2, 2 * m + 1, 0);
    DivMod(m, 2 * m + 1);
    DivIs(m, 2 * m + 1, 0);
  }
}
