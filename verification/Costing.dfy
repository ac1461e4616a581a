/** Weighted-average cost and valuation of a stock balance, and the aggregate that keeps them.

    Quantities are thousandths, money is whole VND; both travel as text or as JavaScript numbers, and
    every rounding is half up. */
module Costing {
  import opened Arith
  import opened Decimals
  import opened Results

  datatype Error = InvalidQuantity | InvalidMoney | InsufficientStock | StateConflict

  function ParseQty(text: string, allowZero: bool := false, allowNegative: bool := false): Result<int, Error> {
    match ParseMilli(text)
    case None => Err(InvalidQuantity)
    case Some(m) => if (!allowNegative && m < 0) || (!allowZero && m == 0) then Err(InvalidQuantity) else Ok(m)
  }

  /** A whole number of VND given as a number. */
  function ParseMoney(n: int): Result<int, Error> { if 0 <= n <= MAX_SAFE then Ok(n) else Err(InvalidMoney) }

  /** A VND amount handed out as a number. */
  function ToNumber(n: int): Result<int, Error> { if -MAX_SAFE <= n <= MAX_SAFE then Ok(n) else Err(InvalidMoney) }

  /** Division rounded half up, in integers. */
  function RoundDiv(n: nat, d: nat): nat
    requires d > 0
  {
    (n + d / 2) / d
  }

  function Valuation(onHand: nat, avg: nat): nat { RoundDiv(onHand * avg, SCALE) }

  /** The average after a receipt. */
  function NewAverage(onHand: nat, avg: nat, qty: nat, cost: nat): nat
    requires qty > 0
  {
    RoundDiv(onHand * avg + qty * cost, onHand + qty)
  }

  datatype Costed = Costed(onHand: int, avg: int, valuation: int)

  function OnReceipt(onHandText: string, avgNumber: int, qtyText: string, costNumber: int): Result<Costed, Error> {
    var onHand :- ParseQty(onHandText, true);
    var avg :- ParseMoney(avgNumber);
    var qty :- ParseQty(qtyText);
    var cost :- ParseMoney(costNumber);
    var newAvg := NewAverage(onHand, avg, qty, cost);
    var valuation := Valuation(onHand + qty, newAvg);
    var avgOut :- ToNumber(newAvg);
    var valuationOut :- ToNumber(valuation);
    Ok(Costed(onHand + qty, avgOut, valuationOut))
  }

  function AfterDeduction(onHandText: string, avgNumber: int, qtyText: string): Result<Costed, Error> {
    var onHand :- ParseQty(onHandText, true);
    var avg :- ParseMoney(avgNumber);
    var qty :- ParseQty(qtyText);
    if qty > onHand then Err(InsufficientStock) else
      var valuation := if onHand == qty then 0 else Valuation(onHand - qty, avg);
      var avgOut :- ToNumber(avg);
      var valuationOut :- ToNumber(valuation);
      Ok(Costed(onHand - qty, avgOut, valuationOut))
  }

  // ---- rounding

  lemma RoundDivError(n: nat, d: int)
    requires d > 0
    ensures -d <= 2 * (d * RoundDiv(n, d) - n) <= d
  {
    DivMod(n + d / 2, d);
  }

  /** The nearest integer, and of two equally near ones the larger. */
  lemma RoundDivIs(n: nat, d: nat)
    requires d > 0
    ensures 2 * (d * RoundDiv(n, d)) <= 2 * n + d < 2 * (d * RoundDiv(n, d)) + 2 * d
  {
    DivMod(n + d / 2, d);
  }

  /** A valuation is on hand times average to the nearest VND, a half upwards. */
  lemma ValuationIs(onHand: nat, avg: nat)
    ensures 2000 * Valuation(onHand, avg) <= 2 * (onHand * avg) + 1000 < 2000 * Valuation(onHand, avg) + 2000
  {
    RoundDivIs(onHand * avg, SCALE);
  }

  /** A new average is the weighted mean to the nearest VND, a half upwards. */
  lemma NewAverageIs(onHand: nat, avg: nat, qty: nat, cost: nat)
    requires qty > 0
    ensures var n, total, r := onHand + qty, onHand * avg + qty * cost, NewAverage(onHand, avg, qty, cost);
            2 * (n * r) <= 2 * total + n < 2 * (n * r) + 2 * n
  {
    RoundDivIs(onHand * avg + qty * cost, onHand + qty);
  }

  // ---- what is accepted

  /** Quantities and amounts with the sign and range that is allowed. */
  lemma NumbersAre(m: int, allowZero: bool, allowNegative: bool)
    ensures ParseQty(FormatMilli(m), allowZero, allowNegative)
            == if m > 0 || (m == 0 && allowZero) || (m < 0 && allowNegative) then Ok(m) else Err(InvalidQuantity)
    ensures ParseMoney(m) == if m < 0 || m > 9007199254740991 then Err(InvalidMoney) else Ok(m)
    ensures ToNumber(m) == if m < -9007199254740991 || m > 9007199254740991 then Err(InvalidMoney) else Ok(m)
    ensures ParseAnyMoney(Big(m)) == if m < 0 then Err(InvalidMoney) else Ok(m)
    ensures ParseAnyMoney(Num(m)) == ParseMoney(m)
  {
    hide ParseMilli, FormatMilli;
    ParseOfFormat(m);
  }

  /** A deduction succeeds exactly when its texts and its cost are good, it is covered and the remaining
      stock's money is in range; a quantity that is not covered is reported as such. */
  lemma DeductionAnswers(onHandText: string, avg: int, qtyText: string)
    ensures var onHand, qty := ParseMilli(onHandText), ParseMilli(qtyText);
            var r := AfterDeduction(onHandText, avg, qtyText);
            var good := onHand.Some? && onHand.value >= 0 && 0 <= avg <= 9007199254740991 && qty.Some? && qty.value > 0;
            && (r == Err(InsufficientStock) <==> good && qty.value > onHand.value)
            && (r.Ok? <==> good && qty.value <= onHand.value && MoneySafe(onHand.value - qty.value, avg))
            && (r.Ok? ==> r.value == Costed(onHand.value - qty.value, avg, Valuation(onHand.value - qty.value, avg)))
            && (onHand.None? ==> r == Err(InvalidQuantity))
            && (good && qty.value <= onHand.value && r.Err? ==> r == Err(InvalidMoney))
  {
    hide ParseMilli;
    assert Valuation(0, if avg < 0 then 0 else avg) == 0;
  }

  /** A receipt succeeds exactly when its texts and its costs are good and the new stock's money is in
      range. */
  lemma ReceiptAnswers(onHandText: string, avg: int, qtyText: string, cost: int)
    ensures var onHand, qty := ParseMilli(onHandText), ParseMilli(qtyText);
            var r := OnReceipt(onHandText, avg, qtyText, cost);
            var good := && onHand.Some? && onHand.value >= 0 && qty.Some? && qty.value > 0
                        && 0 <= avg <= 9007199254740991 && 0 <= cost <= 9007199254740991;
            && (r.Ok? <==> good && MoneySafe(onHand.value + qty.value, NewAverage(onHand.value, avg, qty.value, cost)))
            && (r.Ok? ==> && r.value.onHand == onHand.value + qty.value
                          && r.value.avg == NewAverage(onHand.value, avg, qty.value, cost)
                          && r.value.valuation == Valuation(r.value.onHand, r.value.avg))
            && (onHand.None? ==> r == Err(InvalidQuantity))
            && (good && r.Err? ==> r == Err(InvalidMoney))
  {
    hide ParseMilli, NewAverage, Valuation;
  }

  /** Rounding a value between two integers stays between them. */
  lemma RoundDivBetween(n: nat, d: nat, lo: nat, hi: nat)
    requires d > 0 && d * lo <= n <= d * hi
    ensures lo <= RoundDiv(n, d) <= hi
  {
    assert d * (hi + 1) == d * hi + d;
    DivLower(n + d / 2, d, lo);
    DivUpper(n + d / 2, d, hi);
  }

  lemma RoundDivMonotone(a: nat, b: nat, d: nat)
    requires d > 0 && a <= b
    ensures RoundDiv(a, d) <= RoundDiv(b, d)
  {
    var x := a + d / 2;
    DivMod(x, d);
    DivLower(b + d / 2, d, x / d);
  }

  // ---- a whole life of receipts and deductions

  datatype Move = In(qty: nat, cost: nat) | Out(qty: nat)

  /** A balance with its history in totals: value received, value issued at the average of the
      moment, the on-hand quantities at the receipts, and the lowest and highest cost received since
      the balance was last empty. */
  datatype Life = Life(onHand: nat, avg: nat, received: nat, issued: nat, slack: int, lo: nat, hi: nat)

  const NEWBORN := Life(0, 0, 0, 0, 0, 0, 0)

  /** One movement; a receipt of nothing and a deduction of more than is on hand are refused. */
  function Live(l: Life, m: Move): Life {
    match m
    case In(qty, cost) =>
      if qty == 0 then l else
        var lo := if l.onHand == 0 || cost < l.lo then cost else l.lo;
        var hi := if l.onHand == 0 || cost > l.hi then cost else l.hi;
        Life(l.onHand + qty, NewAverage(l.onHand, l.avg, qty, cost), l.received + qty * cost, l.issued,
             l.slack + l.onHand + qty, lo, hi)
    case Out(qty) =>
      if qty > l.onHand then l else l.(onHand := l.onHand - qty, issued := l.issued + qty * l.avg)
  }

  function LiveAll(l: Life, moves: seq<Move>): Life
    decreases moves
  {
    if moves == [] then l else LiveAll(Live(l, moves[0]), moves[1..])
  }

  /** The average lies between the extreme costs since the balance was last empty, and on hand times
      average differs from what came in less what went out by at most half the on-hand quantity of
      each receipt. */
  predicate Sound(l: Life) {
    && (l.onHand > 0 ==> l.lo <= l.avg <= l.hi)
    && -l.slack <= 2 * (l.onHand * l.avg - (l.received - l.issued)) <= l.slack
  }

  /** So it stays through any run of movements, from any sound balance; a new one is (`NewbornIsSound`). */
  lemma {:induction false} EveryLifeIsSound(l: Life, moves: seq<Move>)
    requires Sound(l)
    ensures Sound(LiveAll(l, moves))
    decreases moves
  {
    hide Live, Sound;
    if moves != [] {
      match moves[0] {
        case In(qty, cost) =>
          if qty > 0 {
            ReceiptIsSound(l, qty, cost);
          } else {
            RefusedIsUnchanged(l, moves[0]);
          }
        case Out(qty) =>
          if qty <= l.onHand {
            IssueIsSound(l, qty);
          } else {
            RefusedIsUnchanged(l, moves[0]);
          }
      }
      EveryLifeIsSound(Live(l, moves[0]), moves[1..]);
    }
  }

  /** The movements of a life are those of the two calculations, as long as these succeed; a deduction that
      is not covered is refused by both. */
  lemma MovesAreCosted(l: Life, qty: nat, cost: nat)
    requires qty > 0
    ensures var r, after := OnReceipt(FormatMilli(l.onHand), l.avg, FormatMilli(qty), cost), Live(l, In(qty, cost));
            r.Ok? ==> after.onHand == r.value.onHand && after.avg == r.value.avg
                      && after.received == l.received + qty * cost && after.issued == l.issued
    ensures var r, after := AfterDeduction(FormatMilli(l.onHand), l.avg, FormatMilli(qty)), Live(l, Out(qty));
            && (r.Ok? ==> after.onHand == r.value.onHand && after.avg == r.value.avg
                          && after.issued == l.issued + qty * l.avg && after.received == l.received)
            && (r == Err(InsufficientStock) ==> after == l)
  {
    hide ParseMilli, FormatMilli, NewAverage, Valuation;
    ParseOfFormat(l.onHand);
    ParseOfFormat(qty);
    ReceiptAnswers(FormatMilli(l.onHand), l.avg, FormatMilli(qty), cost);
    DeductionAnswers(FormatMilli(l.onHand), l.avg, FormatMilli(qty));
  }

  lemma NewbornIsSound()
    ensures Sound(NEWBORN)
  {
  }

  lemma RefusedIsUnchanged(l: Life, m: Move)
    requires if m.In? then m.qty == 0 else m.qty > l.onHand
    ensures Live(l, m) == l
  {
  }

  lemma IssueIsSound(l: Life, qty: nat)
    requires Sound(l) && qty <= l.onHand
    ensures Sound(Live(l, Out(qty)))
  {
    assert (l.onHand - qty) * l.avg == l.onHand * l.avg - qty * l.avg;
  }

  lemma ReceiptIsSound(l: Life, qty: nat, cost: nat)
    requires Sound(l) && qty > 0
    ensures Sound(Live(l, In(qty, cost)))
  {
    hide NewAverage;
    var l' := Live(l, In(qty, cost));
    AverageIsClose(l.onHand, l.avg, qty, cost, l'.lo, l'.hi);
  }

  lemma AverageIsClose(onHand: nat, avg: nat, qty: nat, cost: nat, lo: nat, hi: nat)
    requires qty > 0 && (onHand > 0 ==> lo <= avg <= hi) && lo <= cost <= hi
    ensures var n, avg' := onHand + qty, NewAverage(onHand, avg, qty, cost);
            lo <= avg' <= hi && -n <= 2 * (n * avg' - (onHand * avg + qty * cost)) <= n
  {
    hide RoundDiv;
    var n, total := onHand + qty, onHand * avg + qty * cost;
    RoundDivError(total, n);
    WeightedBetween(onHand, avg, qty, cost, lo, hi);
    RoundDivBetween(total, n, lo, hi);
  }

  lemma WeightedBetween(a: nat, x: nat, b: nat, y: nat, lo: nat, hi: nat)
    requires (a > 0 ==> lo <= x <= hi) && lo <= y <= hi
    ensures (a + b) * lo <= a * x + b * y <= (a + b) * hi
  {
    if a > 0 {
      MulMono(a, lo, x);
      MulMono(a, x, hi);
    }
    MulMono(b, lo, y);
    MulMono(b, y, hi);
    assert (a + b) * lo == a * lo + b * lo && (a + b) * hi == a * hi + b * hi;
  }

  // ---- the aggregate

  /** Money is kept in range: the average and the valuation can be handed out as numbers. */
  predicate MoneySafe(onHand: nat, avg: nat) { avg <= MAX_SAFE && Valuation(onHand, avg) <= MAX_SAFE }

  /** A balance whose money is in range stays so on the way out. */
  lemma DeductionStaysSafe(onHand: nat, avg: nat, qty: nat)
    requires MoneySafe(onHand, avg) && qty <= onHand
    ensures MoneySafe(onHand - qty, avg)
  {
    assert onHand * avg == (onHand - qty) * avg + qty * avg;
    RoundDivMonotone((onHand - qty) * avg, onHand * avg, SCALE);
  }

  /** So a covered deduction never fails on its money, through text and numbers as it goes. */
  lemma DeductionSucceeds(onHand: nat, avg: nat, qty: nat)
    requires MoneySafe(onHand, avg) && 0 < qty <= onHand
    ensures AfterDeduction(FormatMilli(onHand), avg, FormatMilli(qty))
            == Ok(Costed(onHand - qty, avg, Valuation(onHand - qty, avg)))
  {
    hide ParseMilli, FormatMilli;
    ParseOfFormat(onHand);
    ParseOfFormat(qty);
    DeductionStaysSafe(onHand, avg, qty);
  }

  /** An average cost handed over as a number, or as a `bigint`, which is not range checked. */
  datatype Money = Num(n: int) | Big(n: int)

  function ParseAnyMoney(m: Money): Result<int, Error> {
    if m.Big? then (if m.n < 0 then Err(InvalidMoney) else Ok(m.n)) else ParseMoney(m.n)
  }

  class Balance {
    var onHand: nat
    var reserved: nat
    var avg: nat
    var version: int

    /** The aggregate's invariant: nothing is oversold. */
    predicate Valid()
      reads this
    {
      reserved <= onHand
    }

    constructor (onHand: nat, reserved: nat, avg: nat, version: int)
      ensures this.onHand == onHand && this.reserved == reserved && this.avg == avg && this.version == version
    {
      this.onHand, this.reserved, this.avg, this.version := onHand, reserved, avg, version;
    }

    /** Built from a row; the first text that does not parse is the error, and the row's own
        constraint, not the parsing, makes the balance valid. */
    static method FromRow(onHandText: string, reservedText: string, cost: Money, version: int) returns (r: Result<Balance, Error>)
      ensures r.Ok? <==> ParseQty(onHandText, true).Ok? && ParseQty(reservedText, true).Ok? && ParseAnyMoney(cost).Ok?
      ensures ParseQty(onHandText, true).Err? ==> r == Err(ParseQty(onHandText, true).error)
      ensures ParseQty(onHandText, true).Ok? && ParseQty(reservedText, true).Err? ==> r == Err(ParseQty(reservedText, true).error)
      ensures ParseQty(onHandText, true).Ok? && ParseQty(reservedText, true).Ok? && ParseAnyMoney(cost).Err?
              ==> r == Err(ParseAnyMoney(cost).error)
      ensures r.Ok? ==> fresh(r.value) && r.value.onHand == ParseQty(onHandText, true).value
                        && r.value.reserved == ParseQty(reservedText, true).value
                        && r.value.avg == ParseAnyMoney(cost).value && r.value.version == version
    {
      var onHand :- ParseQty(onHandText, true);
      var reserved :- ParseQty(reservedText, true);
      var avg :- ParseAnyMoney(cost);
      var b := new Balance(onHand, reserved, avg, version);
      return Ok(b);
    }

    function Available(): int
      reads this
    {
      onHand - reserved
    }

    method CanSatisfy(text: string) returns (r: Result<bool, Error>)
      ensures ParseQty(text).Err? ==> r == Err(ParseQty(text).error)
      ensures ParseQty(text).Ok? ==> r == Ok(ParseQty(text).value <= onHand - reserved)
    {
      var q :- ParseQty(text);
      return Ok(Available() >= q);
    }

    method Reserve(text: string) returns (r: Result<(), Error>)
      modifies this
      ensures r.Ok? <==> ParseQty(text).Ok? && ParseQty(text).value <= old(onHand) - old(reserved)
      ensures onHand == old(onHand) && avg == old(avg)
      ensures r.Ok? ==> reserved == old(reserved) + ParseQty(text).value && version == old(version) + 1
      ensures r.Err? ==> unchanged(this) && r.error == if ParseQty(text).Err? then InvalidQuantity else InsufficientStock
      ensures old(Valid()) ==> Valid()
    {
      var q :- ParseQty(text);
      if Available() < q {
        return Err(InsufficientStock);
      }
      reserved := reserved + q;
      version := version + 1;
      return Ok(());
    }

    method Release(text: string) returns (r: Result<(), Error>)
      modifies this
      ensures r.Ok? <==> ParseQty(text).Ok? && ParseQty(text).value <= old(reserved)
      ensures onHand == old(onHand) && avg == old(avg)
      ensures r.Ok? ==> reserved == old(reserved) - ParseQty(text).value && version == old(version) + 1
      ensures r.Err? ==> unchanged(this) && r.error == if ParseQty(text).Err? then InvalidQuantity else StateConflict
      ensures old(Valid()) ==> Valid()
    {
      var q :- ParseQty(text);
      if q > reserved {
        return Err(StateConflict);
      }
      reserved := reserved - q;
      version := version + 1;
      return Ok(());
    }

    /** Commits part of the reservation. For a balance with its money in range it succeeds exactly
        when the quantity is reserved and on hand. */
    method CommitReservation(text: string) returns (r: Result<Costed, Error>)
      modifies this
      ensures r.Ok? <==> ParseQty(text).Ok? && ParseQty(text).value <= old(reserved) && ParseQty(text).value <= old(onHand)
                         && MoneySafe(old(onHand) - ParseQty(text).value, avg)
      ensures (ParseQty(text).Ok? && ParseQty(text).value <= old(reserved) && ParseQty(text).value <= old(onHand)
               && old(MoneySafe(onHand, avg))) ==> r.Ok?
      ensures r.Err? ==> r.error == if ParseQty(text).Err? then InvalidQuantity
                                    else if ParseQty(text).value > old(reserved) || ParseQty(text).value > old(onHand)
                                    then InsufficientStock else InvalidMoney
      ensures avg == old(avg)
      ensures r.Ok? ==> onHand == old(onHand) - ParseQty(text).value && reserved == old(reserved) - ParseQty(text).value
                        && version == old(version) + 1 && r.value == Costed(onHand, avg, Valuation(onHand, avg))
      ensures r.Err? ==> unchanged(this)
      ensures old(Valid()) ==> Valid()
    {
      var q :- ParseQty(text);
      if q > reserved || q > onHand {
        return Err(InsufficientStock);
      }
      r := Deduct(q);
      if r.Ok? {
        onHand := r.value.onHand;
        reserved := reserved - q;
        version := version + 1;
      }
    }

    /** The text-and-number detour of both deductions; it refines plain subtraction. */
    method Deduct(q: nat) returns (r: Result<Costed, Error>)
      requires 0 < q <= onHand
      ensures MoneySafe(onHand, avg) ==> r.Ok?
      ensures r == if MoneySafe(onHand - q, avg) then Ok(Costed(onHand - q, avg, Valuation(onHand - q, avg))) else Err(InvalidMoney)
    {
      hide ParseMilli, FormatMilli;
      ParseOfFormat(onHand);
      ParseOfFormat(q);
      if MoneySafe(onHand, avg) {
        DeductionSucceeds(onHand, avg, q);
      }
      var avgNumber :- ToNumber(avg);
      r := AfterDeduction(FormatMilli(onHand), avgNumber, FormatMilli(q));
    }

    method Receive(text: string, cost: int) returns (r: Result<Costed, Error>)
      modifies this
      ensures r.Ok? ==> ParseQty(text).Ok? && 0 <= cost <= MAX_SAFE
      ensures r.Ok? ==> onHand == old(onHand) + ParseQty(text).value
                        && avg == NewAverage(old(onHand), old(avg), ParseQty(text).value, cost)
                        && MoneySafe(onHand, avg) && r.value == Costed(onHand, avg, Valuation(onHand, avg))
      ensures reserved == old(reserved) && version == old(version) + if r.Ok? then 1 else 0
      ensures r.Err? ==> unchanged(this)
      ensures (ParseQty(text).Ok? && 0 <= cost <= MAX_SAFE && old(avg) <= MAX_SAFE
               && MoneySafe(old(onHand) + ParseQty(text).value, NewAverage(old(onHand), old(avg), ParseQty(text).value, cost)))
              ==> r.Ok?
      ensures r.Err? ==> r.error == if old(avg) <= MAX_SAFE && ParseQty(text).Err? then InvalidQuantity else InvalidMoney
      ensures old(Valid()) ==> Valid()
    {
      hide ParseMilli, FormatMilli;
      ParseOfFormat(onHand);
      var avgNumber :- ToNumber(avg);
      r := OnReceipt(FormatMilli(onHand), avgNumber, text, cost);
      if r.Ok? {
        onHand := r.value.onHand;
        avg := r.value.avg;
        version := version + 1;
      }
    }

    method DeductAvailable(text: string) returns (r: Result<Costed, Error>)
      modifies this
      ensures r.Ok? <==> ParseQty(text).Ok? && ParseQty(text).value <= old(onHand) - old(reserved)
                         && MoneySafe(old(onHand) - ParseQty(text).value, avg)
      ensures r.Err? ==> r.error == if ParseQty(text).Err? then InvalidQuantity
                                    else if ParseQty(text).value > old(onHand) - old(reserved) then InsufficientStock
                                    else InvalidMoney
      ensures ParseQty(text).Ok? && ParseQty(text).value <= old(onHand) - old(reserved) && old(MoneySafe(onHand, avg)) ==> r.Ok?
      ensures avg == old(avg) && reserved == old(reserved)
      ensures r.Ok? ==> onHand == old(onHand) - ParseQty(text).value && version == old(version) + 1
                        && r.value == Costed(onHand, avg, Valuation(onHand, avg))
      ensures r.Err? ==> unchanged(this)
      ensures old(Valid()) ==> Valid()
    {
      hide ParseMilli, FormatMilli;
      var q :- ParseQty(text);
      if Available() < q {
        return Err(InsufficientStock);
      }
      r := Deduct(q);
      if r.Ok? {
        onHand := r.value.onHand;
        version := version + 1;
      }
    }
  }
}
