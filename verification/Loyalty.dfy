/** Taking loyalty points back when an order is returned in part.

    With the running total of refunds the points follow the refunded share; without it every return is
    rounded down by itself. */
module Loyalty {
  import opened Arith
  import opened Decimals

  /** An amount as a caller may pass it; a whole number arrives as a `number` or as a `bigint`. */
  datatype Raw = Missing | NotWhole | Number(n: int) | BigInt(n: int)

  /** `parseVndBigInt` with zero allowed; `None` is the validation error. */
  function ParseVnd(raw: Raw): Option<nat> {
    match raw
    case Missing => Some(0)
    case NotWhole => None
    case Number(n) => if 0 <= n <= MAX_SAFE then Some(n) else None
    case BigInt(n) => if 0 <= n then Some(n) else None
  }

  datatype Reversal = Reversal(points: int, left: int)

  /** The refunded part of the points, and what its division leaves. */
  function Share(earned: int, refund: nat, spend: nat): int
    requires spend > 0
  {
    earned * refund / spend
  }

  function Rest(earned: int, refund: nat, spend: nat): nat
    requires spend > 0
  {
    earned * refund % spend
  }

  /** `calculateReturnPointReversal`; `cumulative` is `None` when the running total is not supplied. */
  function Reverse(earned: int, already: int, spend: Raw, refund: Raw, cumulative: Option<Raw>): Option<Reversal> {
    var remaining := Max(0, earned - already);
    if earned <= 0 || remaining == 0 then Some(Reversal(0, 0))
    else if ParseVnd(spend).None? || ParseVnd(refund).None? then None
    else
      var s, r := ParseVnd(spend).value, ParseVnd(refund).value;
      if s <= 0 || r <= 0 then Some(Reversal(0, remaining))
      else if cumulative.Some? then
        if ParseVnd(cumulative.value).None? then None
        else
          var c := ParseVnd(cumulative.value).value;
          if c >= s then Some(Reversal(remaining, 0))
          else
            var delta := Max(0, Min(remaining, Share(earned, c, s) - already));
            Some(Reversal(delta, remaining - delta))
      else if r >= s then Some(Reversal(remaining, 0))
      else
        var delta := Max(0, Min(remaining, Share(earned, r, s)));
        Some(Reversal(delta, remaining - delta))
  }

  /** Missing amounts count as nothing; a number must be safe, a big integer only not negative. */
  lemma AmountIs(n: int)
    ensures ParseVnd(Number(n)) == (if 0 <= n <= 9007199254740991 then Some(n) else None)
    ensures ParseVnd(BigInt(n)) == (if n < 0 then None else Some(n))
    ensures ParseVnd(Missing) == Some(0) && ParseVnd(NotWhole) == None
  {
  }

  /** What is taken back and what is left make up what was left before; nothing is left once the whole
      spend is refunded, and nothing is taken back without a spend or a refund. */
  lemma ReversalIs(earned: int, already: int, spend: Raw, refund: Raw, cumulative: Option<Raw>)
    ensures var r, open := Reverse(earned, already, spend, refund, cumulative), Max(0, earned - already);
            var s, back := ParseVnd(spend), ParseVnd(refund);
            var nothing := s == Some(0) || back == Some(0);
            && (earned <= 0 || already >= earned ==> r == Some(Reversal(0, 0)))
            && (earned > 0 && already < earned ==>
                  && (r.None? <==> s == None || back == None
                                   || (!nothing && cumulative.Some? && ParseVnd(cumulative.value).None?))
                  && (r.Some? ==>
                        && 0 <= r.value.points && r.value.points + r.value.left == open
                        && (nothing ==> r.value.points == 0)
                        && (!nothing && (if cumulative.Some? then ParseVnd(cumulative.value) else back).value >= s.value
                            ==> r.value.left == 0)))
  {
    hide Share, ParseVnd;
  }

  // ---- a run of returns

  function Sum(refunds: seq<nat>): nat {
    if refunds == [] then 0 else Sum(refunds[..|refunds| - 1]) + refunds[|refunds| - 1]
  }

  /** One more return: the service adds the reversal to those already made. */
  function Next(earned: nat, spend: nat, already: int, refund: nat, total: Option<nat>): Option<int> {
    var cumulative := if total.Some? then Some(Number(total.value)) else None;
    match Reverse(earned, already, Number(spend), Number(refund), cumulative)
    case None => None
    case Some(r) => Some(already + r.points)
  }

  /** The points an order has given back in all; the running total of refunds is passed when `tracked`. */
  function Reversed(earned: nat, spend: nat, refunds: seq<nat>, tracked: bool): Option<int> {
    if refunds == [] then Some(0)
    else
      var already := Reversed(earned, spend, refunds[..|refunds| - 1], tracked);
      if already.None? then None
      else Next(earned, spend, already.value, refunds[|refunds| - 1], if tracked then Some(Sum(refunds)) else None)
  }

  /** The points due for what has been refunded so far. */
  function Due(earned: nat, spend: nat, refunded: nat): nat
    requires spend > 0
  {
    Share(earned, Min(refunded, spend), spend)
  }

  lemma DueBounds(earned: nat, spend: nat, a: nat, b: nat)
    requires spend > 0 && a <= b
    ensures Due(earned, spend, a) <= Due(earned, spend, b) <= earned
    ensures Due(earned, spend, 0) == 0
    ensures b >= spend ==> Due(earned, spend, b) == earned
  {
    hide Share;
    ShareBounds(earned, Min(a, spend), Min(b, spend), spend);
    ShareOfNothing(earned, spend, 0);
  }

  lemma ShareBounds(earned: nat, a: nat, b: nat, spend: nat)
    requires 0 < spend && a <= b <= spend
    ensures Share(earned, a, spend) <= Share(earned, b, spend) <= earned
    ensures Share(earned, spend, spend) == earned
  {
    MulMono(earned, a, b);
    MulMono(earned, b, spend);
    DivIs(earned * spend, spend, earned);
    DivUpper(earned * b, spend, earned);
    DivLower(earned * b, spend, earned * a / spend);
  }

  /** With the running total supplied, the points given back are exactly the share of what was
      refunded, however the refund was split. */
  lemma {:induction false} SplitDoesNotMatter(earned: nat, spend: nat, refunds: seq<nat>)
    requires 0 < spend <= MAX_SAFE && Sum(refunds) <= MAX_SAFE
    ensures Reversed(earned, spend, refunds, true) == Some(Due(earned, spend, Sum(refunds)))
  {
    hide Due, Share;
    DueBounds(earned, spend, 0, Sum(refunds));
    if refunds != [] {
      var before := refunds[..|refunds| - 1];
      SplitDoesNotMatter(earned, spend, before);
      DueBounds(earned, spend, Sum(before), Sum(refunds));
      DueIs(earned, spend, Sum(refunds));
    }
  }

  lemma DueIs(earned: nat, spend: nat, refunded: nat)
    requires spend > 0
    ensures refunded < spend ==> Due(earned, spend, refunded) == Share(earned, refunded, spend)
  {
  }

  /** Never more than was earned, and all of it once everything is refunded. */
  lemma FullReturnTakesAll(earned: nat, spend: nat, refunds: seq<nat>)
    requires 0 < spend <= MAX_SAFE && Sum(refunds) <= MAX_SAFE
    ensures Reversed(earned, spend, refunds, true).Some?
    ensures 0 <= Reversed(earned, spend, refunds, true).value <= earned
    ensures Sum(refunds) >= spend ==> Reversed(earned, spend, refunds, true) == Some(earned)
  {
    SplitDoesNotMatter(earned, spend, refunds);
    DueBounds(earned, spend, Sum(refunds), Sum(refunds));
  }

  lemma {:induction false} SumDeferred(early: nat, refunds: seq<nat>, late: seq<nat>)
    requires early == Sum(refunds)
    ensures Sum([early] + late) == Sum(refunds + late)
  {
    if late == [] {
      assert refunds + late == refunds && [early] + late == [early];
      assert [early][..0] == [];
    } else {
      var n := |late| - 1;
      SumDeferred(early, refunds, late[..n]);
      assert ([early] + late)[..1 + n] == [early] + late[..n];
      assert (refunds + late)[..|refunds| + n] == refunds + late[..n];
    }
  }

  /** Returns that arrive before the order is completed, reversed in one go afterwards, end in the
      same points as if they had come after it. */
  lemma DeferralDoesNotMatter(earned: nat, spend: nat, early: seq<nat>, late: seq<nat>)
    requires 0 < spend <= MAX_SAFE && Sum(early + late) <= MAX_SAFE
    ensures Reversed(earned, spend, [Sum(early)] + late, true) == Reversed(earned, spend, early + late, true)
  {
    SumDeferred(Sum(early), early, late);
    SplitDoesNotMatter(earned, spend, [Sum(early)] + late);
    SplitDoesNotMatter(earned, spend, early + late);
  }

  // ---- without the running total

  /** What each single floor cuts off, in parts of `spend`. */
  function CutOff(earned: nat, spend: nat, refunds: seq<nat>): nat
    requires spend > 0
  {
    if refunds == [] then 0
    else CutOff(earned, spend, refunds[..|refunds| - 1]) + Rest(earned, refunds[|refunds| - 1], spend)
  }

  /** The single floors added up. */
  function Floors(earned: nat, spend: nat, refunds: seq<nat>): int
    requires spend > 0
  {
    if refunds == [] then 0
    else Floors(earned, spend, refunds[..|refunds| - 1]) + Share(earned, refunds[|refunds| - 1], spend)
  }

  /** Does a single refund reach the spend? */
  predicate Reaches(spend: nat, refunds: seq<nat>) { exists i :: 0 <= i < |refunds| && refunds[i] >= spend }

  function Untracked(earned: nat, spend: nat, refunds: seq<nat>): int
    requires spend > 0
  {
    if Reaches(spend, refunds) then earned else Min(earned, Floors(earned, spend, refunds))
  }

  lemma UntrackedStep(earned: nat, spend: nat, already: nat, refund: nat)
    requires 0 < spend <= MAX_SAFE && refund <= MAX_SAFE && already <= earned
    ensures Next(earned, spend, already, refund, None)
            == Some(if refund >= spend then earned else Min(earned, already + Share(earned, refund, spend)))
    ensures Share(earned, refund, spend) >= 0
  {
    ShareOfNothing(earned, spend, refund);
    hide Share;
  }

  /** Without the running total: all points once a single refund reaches the spend, and otherwise the
      single floors, up to all points. */
  lemma {:induction false} UntrackedIs(earned: nat, spend: nat, refunds: seq<nat>)
    requires 0 < spend <= MAX_SAFE && forall i :: 0 <= i < |refunds| ==> refunds[i] <= MAX_SAFE
    ensures Reversed(earned, spend, refunds, false) == Some(Untracked(earned, spend, refunds))
    ensures 0 <= Untracked(earned, spend, refunds) <= earned && Floors(earned, spend, refunds) >= 0
  {
    hide Next, Share;
    if refunds != [] {
      var n := |refunds| - 1;
      var before := refunds[..n];
      UntrackedIs(earned, spend, before);
      UntrackedStep(earned, spend, Untracked(earned, spend, before), refunds[n]);
      assert Reaches(spend, refunds) <==> Reaches(spend, before) || refunds[n] >= spend by {
        assert forall i :: 0 <= i < n ==> before[i] == refunds[i];
      }
    }
  }

  lemma ShareOfNothing(earned: nat, spend: nat, refund: nat)
    requires spend > 0
    ensures earned == 0 || refund == 0 ==> Share(earned, refund, spend) == 0
    ensures Share(earned, refund, spend) >= 0
  {
    DivLower(earned * refund, spend, 0);
    if earned == 0 || refund == 0 {
      DivIs(0, spend, 0);
    }
  }

  /** Floors and cut-off parts make up the whole. */
  lemma {:induction false} FloorsAndCutOff(earned: nat, spend: nat, refunds: seq<nat>)
    requires spend > 0
    ensures spend * Floors(earned, spend, refunds) + CutOff(earned, spend, refunds) == earned * Sum(refunds)
  {
    hide Share, Rest;
    if refunds == [] {
      assert earned * Sum(refunds) == 0;
    } else {
      var before, refund := refunds[..|refunds| - 1], refunds[|refunds| - 1];
      FloorsAndCutOff(earned, spend, before);
      OneFloor(earned, spend, Floors(earned, spend, before), CutOff(earned, spend, before), Sum(before), refund);
    }
  }

  lemma OneFloor(earned: nat, spend: nat, floors: int, cut: nat, before: nat, refund: nat)
    requires spend > 0 && spend * floors + cut == earned * before
    ensures spend * (floors + Share(earned, refund, spend)) + (cut + Rest(earned, refund, spend)) == earned * (before + refund)
  {
    var q, m := Share(earned, refund, spend), Rest(earned, refund, spend);
    DivMod(earned * refund, spend);
    assert earned * (before + refund) == earned * before + earned * refund;
    assert spend * (floors + q) == spend * floors + spend * q;
  }

  lemma CarryOver(earned: nat, spend: nat, points: int, cut: nat, refunded: nat)
    requires spend > 0 && spend * points + cut == earned * refunded
    ensures Share(earned, refunded, spend) == points + cut / spend
  {
    DivMod(cut, spend);
    var q := points + cut / spend;
    assert spend * q == spend * points + spend * (cut / spend);
    DivIs(earned * refunded, spend, q);
  }

  /** What is missing: while the spend is not used up, what the cut-off parts add up to; after that,
      what the floors leave of all points, unless a single refund reached the spend. */
  lemma UntrackedFallsShort(earned: nat, spend: nat, refunds: seq<nat>)
    requires 0 < spend <= MAX_SAFE && Sum(refunds) <= MAX_SAFE
    ensures Reversed(earned, spend, refunds, false) == Some(Untracked(earned, spend, refunds))
    ensures Due(earned, spend, Sum(refunds)) - Untracked(earned, spend, refunds)
            == if Sum(refunds) < spend then CutOff(earned, spend, refunds) / spend
               else if Reaches(spend, refunds) then 0
               else Max(0, earned - Floors(earned, spend, refunds))
  {
    hide Due, Share, Reaches, Reversed;
    EachIsInTheSum(refunds);
    UntrackedIs(earned, spend, refunds);
    var floors, cut, total := Floors(earned, spend, refunds), CutOff(earned, spend, refunds), Sum(refunds);
    DueBounds(earned, spend, total, total);
    if total < spend {
      FloorsAndCutOff(earned, spend, refunds);
      CarryOver(earned, spend, floors, cut, total);
      DueIs(earned, spend, total);
      NoneReaches(spend, refunds);
      DivLower(cut, spend, 0);
    }
  }

  lemma {:induction false} EachIsInTheSum(refunds: seq<nat>)
    ensures forall i :: 0 <= i < |refunds| ==> refunds[i] <= Sum(refunds)
  {
    if refunds != [] {
      EachIsInTheSum(refunds[..|refunds| - 1]);
    }
  }

  lemma NoneReaches(spend: nat, refunds: seq<nat>)
    requires Sum(refunds) < spend
    ensures !Reaches(spend, refunds)
  {
    EachIsInTheSum(refunds);
  }

  /** So the running total makes no difference exactly when, short of the spend, the cut-off parts stay
      below one point, and from the spend on a single refund reached it or the floors come to all points. */
  lemma UntrackedAgreesIff(earned: nat, spend: nat, refunds: seq<nat>)
    requires 0 < spend <= MAX_SAFE && Sum(refunds) <= MAX_SAFE
    ensures Reversed(earned, spend, refunds, false) == Reversed(earned, spend, refunds, true)
            <==> if Sum(refunds) < spend then CutOff(earned, spend, refunds) < spend
                 else Reaches(spend, refunds) || Floors(earned, spend, refunds) >= earned
  {
    hide Reversed, Reaches, Floors, Due, CutOff, Untracked;
    UntrackedFallsShort(earned, spend, refunds);
    SplitDoesNotMatter(earned, spend, refunds);
    var cut := CutOff(earned, spend, refunds);
    if cut >= spend {
      DivLower(cut, spend, 1);
    } else {
      DivIs(cut, spend, 0);
    }
  }

  /** Three returns of a third of an order that earned ten points leave one point behind. */
  lemma ThirdsLeaveAPoint()
    ensures Reversed(10, 3, [1, 1, 1], true) == Some(10)
    ensures Reversed(10, 3, [1, 1, 1], false) == Some(9)
  {
    hide Next, Due;
    var one: seq<nat>, two: seq<nat>, all: seq<nat> := [1], [1, 1], [1, 1, 1];
    assert all[..2] == two && two[..1] == one && one[..0] == [];
    assert Sum(one) == 1 && Sum(two) == 2 && Sum(all) == 3;
    SplitDoesNotMatter(10, 3, all);
    assert Floors(10, 3, one) == 3 && Floors(10, 3, two) == 6 && Floors(10, 3, all) == 9;
    UntrackedIs(10, 3, all);
    DueBounds(10, 3, 3, 3);
  }
}
