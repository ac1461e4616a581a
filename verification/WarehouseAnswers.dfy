/** What the warehouse store answers and does, operation by operation: outcomes, reservations, balances
    and ledger rows, for every state and every input. */
module WarehouseAnswers {
  import opened Decimals
  import opened Lines
  import opened Normalize
  import opened WarehouseStock
  import Arith
  import Costing

  predicate Has(db: Db, tenant: string, id: string) { id in db.reservations && db.reservations[id].tenant == tenant }

  /** Only this reservation differs, and only in its state. */
  ghost predicate OnlyState(db: Db, after: Db, id: string) {
    && after.reservations.Keys == db.reservations.Keys
    && (forall x :: x in db.reservations && x != id ==> after.reservations[x] == db.reservations[x])
    && (id in db.reservations ==> after.reservations[id] == db.reservations[id].(state := after.reservations[id].state))
  }

  // ---- committing, releasing, expiring

  /** Done exactly when the reservation is then committed; refused, and nothing changed, when it is not
      the tenant's, or was given back before. */
  lemma CommitAnswers(db: Db, tenant: string, id: string)
    ensures var (after, answer) := CommitTx(db, tenant, id);
            && (answer == Done <==> Has(after, tenant, id) && after.reservations[id].state.Committed?)
            && (answer == Refused(NotFound) <==> !Has(db, tenant, id))
            && (answer == Refused(WrongState)
                <==> Has(db, tenant, id) && (db.reservations[id].state.Released? || db.reservations[id].state.Expired?))
            && (answer.Done? || answer == Refused(NotFound) || answer == Refused(WrongState))
            && (!(Has(db, tenant, id) && db.reservations[id].state.Held?) ==> after == db)
            && OnlyState(db, after, id)
  {
    hide Deduct, SalesOf, InRowOrder;
  }

  /** Done exactly when the reservation is then given back; a committed one is refused. */
  lemma ReleaseAnswers(db: Db, tenant: string, id: string)
    ensures var (after, answer) := ReleaseTx(db, tenant, id);
            && (answer == Done <==> Has(after, tenant, id)
                                    && (after.reservations[id].state.Released? || after.reservations[id].state.Expired?))
            && (answer == Refused(NotFound) <==> !Has(db, tenant, id))
            && (answer == Refused(WrongState) <==> Has(db, tenant, id) && db.reservations[id].state.Committed?)
            && (answer.Done? || answer == Refused(NotFound) || answer == Refused(WrongState))
            && (Has(db, tenant, id) && db.reservations[id].state.Held? ==> after.reservations[id].state.Released?)
            && (!(Has(db, tenant, id) && db.reservations[id].state.Held?) ==> after == db)
            && OnlyState(db, after, id) && after.sales == db.sales
  {
    hide Shift;
  }

  /** A HELD reservation past its time is given back; anything else is left alone. */
  lemma ExpireAnswers(db: Db, tenant: string, id: string, now: int)
    requires Inv(db)
    ensures var after := ExpireTx(db, tenant, id, now);
            var due := Has(db, tenant, id) && db.reservations[id].state.Held?
                       && db.reservations[id].expiresAt.Some? && db.reservations[id].expiresAt.value < now;
            && (!due ==> after == db)
            && (due ==> after.reservations[id].state.Expired?
                        && forall r :: OnHand(after.balances, r) == OnHand(db.balances, r)
                                       && Reserved(after.balances, r)
                                          == Reserved(db.balances, r) - Asked(tenant, db.reservations[id].lines, r))
            && OnlyState(db, after, id) && after.sales == db.sales
  {
    hide Asked, BalancesOk;
    if Has(db, tenant, id) && db.reservations[id].state.Held? {
      HeldClosesInFull(db, id);
    }
  }

  /** No operation on reservations touches costs: averages stay, and no row comes or goes. */
  lemma CostsStay(db: Db, env: Env, tenant: string, req: Request, id: string, now: int, r: Key)
    ensures var made, committed := ReserveTx(db, env, tenant, req, id, now).0, CommitTx(db, tenant, id).0;
            var released, expired := ReleaseTx(db, tenant, id).0, ExpireTx(db, tenant, id, now);
            && (r in made.balances <==> r in db.balances) && (r in committed.balances <==> r in db.balances)
            && (r in released.balances <==> r in db.balances) && (r in expired.balances <==> r in db.balances)
            && (r in db.balances ==> made.balances[r].avg == committed.balances[r].avg == released.balances[r].avg
                                     == expired.balances[r].avg == db.balances[r].avg)
            && (r in db.balances ==> made.balances[r].valuation == released.balances[r].valuation
                                     == expired.balances[r].valuation == db.balances[r].valuation)
  {
    hide Shift, Deduct, SalesOf, InRowOrder, Validated, Located, ShortLines, Available, Trim, SameKey, PayloadOf, ExpiryOf;
    forall t, lines, sign
      ensures SameCosts(db.balances, Shift(db.balances, t, lines, sign), r) && SameAverage(db.balances, Deduct(db.balances, t, lines), r)
    {
      LinesKeepCosts(db.balances, t, lines, sign, r);
    }
  }

  predicate SameAverage(b: Balances, b': Balances, r: Key) { (r in b <==> r in b') && (r in b ==> b'[r].avg == b[r].avg) }

  predicate SameCosts(b: Balances, b': Balances, r: Key) {
    SameAverage(b, b', r) && (r in b ==> b'[r].valuation == b[r].valuation)
  }

  lemma LinesKeepCosts(b: Balances, tenant: string, lines: seq<Line>, sign: int, r: Key)
    ensures SameCosts(b, Shift(b, tenant, lines, sign), r) && SameAverage(b, Deduct(b, tenant, lines), r)
  {
    hide Asked;
  }

  /** The ledger rows of a commit: one for each line, each with what was on hand when it was written. */
  lemma CommitWrites(db: Db, tenant: string, id: string)
    requires Has(db, tenant, id) && db.reservations[id].state.Held?
    ensures var before, after := db.sales, CommitTx(db, tenant, id).0.sales;
            var lines := InRowOrder(db.reservations[id].lines);
            && before <= after
            && var added := after[|before|..];
               && |added| == |lines|
               && forall i :: 0 <= i < |added| ==>
                    && added[i].reservation == id && added[i].row == [tenant] + lines[i].key && added[i].delta == -lines[i].qty
                    && added[i].before == OnHand(db.balances, added[i].row) + Sold(added[..i], id, added[i].row)
  {
    hide Deduct, InRowOrder, OnHand;
    var lines := InRowOrder(db.reservations[id].lines);
    var added := SalesOf(db.balances, id, tenant, lines);
    var after := CommitTx(db, tenant, id).0.sales;
    assert after[|db.sales|..] == added;
    forall i | 0 <= i < |added|
      ensures added[i].before == OnHand(db.balances, added[i].row) + Sold(added[..i], id, added[i].row)
    {
      assert added[..i] == SalesOf(db.balances, id, tenant, lines[..i]) by {
        assert forall j :: 0 <= j < i ==> lines[..i][..j] == lines[..j];
      }
      SoldSoFar(db.balances, id, tenant, lines[..i], lines[i].key);
    }
  }

  lemma {:induction false} SoldSoFar(b: Balances, id: string, tenant: string, lines: seq<Line>, k: Key)
    ensures Sold(SalesOf(b, id, tenant, lines), id, [tenant] + k) == -Total(lines, k)
  {
    hide OnHand;
    if lines != [] {
      var n := |lines| - 1;
      var all := SalesOf(b, id, tenant, lines);
      assert all[..n] == SalesOf(b, id, tenant, lines[..n]) by {
        assert forall j :: 0 <= j < n ==> lines[..n][..j] == lines[..j];
      }
      SoldSoFar(b, id, tenant, lines[..n], k);
      assert ([tenant] + lines[n].key)[1..] == lines[n].key && ([tenant] + k)[1..] == k;
    }
  }

  // ---- reserving

  /** What a new reservation remembers, and when it falls due: exactly after its seconds have passed, or
      never. */
  lemma NewReservation(db: Db, env: Env, tenant: string, req: Request, id: string, now: int)
    requires ReserveTx(db, env, tenant, req, id, now).1.Created?
    ensures var (after, answer) := ReserveTx(db, env, tenant, req, id, now);
            && answer == Created(id) && Has(after, tenant, id) && after.sales == db.sales
            && (forall x :: x in db.reservations && x != id ==> x in after.reservations && after.reservations[x] == db.reservations[x])
            && (forall x :: x in after.reservations ==> x == id || x in db.reservations)
            && (var v := after.reservations[id];
                && v.state.Held? && v.key == Trim(req.key) && Normalized(req.lines) == Some(v.payload.lines)
                && v.payload.caller == req.caller && v.payload.refType == req.refType && v.payload.refId == req.refId
                && v.payload.branch == req.branch && v.payload.noExpiry == req.noExpiry
                && Located(env, req.branch, v.payload.lines) == Some(v.lines))
            && forall t :: IsDue(after, tenant, id, t) <==> !req.noExpiry && t > now + 1000 * req.ttlSeconds
  {
    hide Normalized, Located, ShortLines, Available, Shift, SameKey, Trim;
  }

  /** A key answers for an earlier request exactly when tenant, caller and trimmed key are all the same. */
  lemma KeyDecides(db: Db, env: Env, tenant: string, req: Request, id: string, now: int)
    requires Validated(req).None?
    ensures var answer := ReserveTx(db, env, tenant, req, id, now).1;
            answer.Replayed? || answer == Refused(Conflict)
            <==> exists x :: x in db.reservations && db.reservations[x].tenant == tenant
                             && db.reservations[x].payload.caller == req.caller && db.reservations[x].key == Trim(req.key)
  {
    hide Validated, Located, ShortLines, Available, Shift, Trim, PayloadOf, ExpiryOf;
    if x :| x in db.reservations && db.reservations[x].tenant == tenant
            && db.reservations[x].payload.caller == req.caller && db.reservations[x].key == Trim(req.key) {
      assert SameKey(db.reservations[x], tenant, req.caller, Trim(req.key));
    }
  }

  /** And over any run each tenant, caller and key has at most one reservation. */
  lemma OneReservationPerKey(ops: seq<Op>, x: string, y: string)
    requires FreshIds(ops)
    ensures var vs := Run(EMPTY, ops).reservations;
            x in vs && y in vs && vs[x].tenant == vs[y].tenant && vs[x].key == vs[y].key
              && vs[x].payload.caller == vs[y].payload.caller
            ==> x == y
  {
    hide Run;
    EveryRunBalances(ops);
  }

  predicate KeyIsGood(req: Request) { 1 <= |Trim(req.key)| <= 128 }

  predicate QuantitiesAreGood(lines: seq<TextLine>) {
    lines != [] && forall i :: 0 <= i < |lines| ==> ParseMilli(lines[i].qty).Some? && ParseMilli(lines[i].qty).value > 0
  }

  /** Why a request is refused before the database is asked, in this order. */
  lemma RefusedAtOnce(req: Request)
    ensures Validated(req) == Some(MissingKey) <==> !KeyIsGood(req)
    ensures Validated(req) == Some(InvalidQuantity) <==> KeyIsGood(req) && !QuantitiesAreGood(req.lines)
    ensures Validated(req) == Some(BranchRequired)
            <==> KeyIsGood(req) && QuantitiesAreGood(req.lines) && req.branch == ""
                 && (req.caller == "sales"
                     || (Normalized(req.lines).Some?
                         && exists i :: 0 <= i < |Normalized(req.lines).value|
                                        && ([""] <= Normalized(req.lines).value[i].key)))
    ensures Validated(req).None? || Validated(req) in {Some(MissingKey), Some(InvalidQuantity), Some(BranchRequired)}
  {
    hide Trim, ParseMilli, Canonical, Entered;
    ParsedIff(req.lines);
    if Normalized(req.lines).Some? {
      NormalizedKeys(req.lines);
    }
  }

  /** The rows lines fall on: each where its warehouse and SKU point. */
  lemma {:induction false} RowsAre(env: Env, lines: seq<Line>)
    ensures Rows(env, lines).Some?
            <==> forall i :: 0 <= i < |lines| ==> |lines[i].key| == 2 && env.rowOf(lines[i].key[0], lines[i].key[1]).Some?
    ensures Rows(env, lines).Some? ==>
              && |Rows(env, lines).value| == |lines|
              && forall i :: 0 <= i < |lines| ==>
                   Rows(env, lines).value[i] == Line(env.rowOf(lines[i].key[0], lines[i].key[1]).value, lines[i].qty)
  {
    if lines != [] {
      var n := |lines| - 1;
      RowsAre(env, lines[..n]);
      assert forall i :: 0 <= i < n ==> lines[..n][i] == lines[i];
    }
  }

  lemma {:induction false} RelocatedAre(env: Env, branch: string, lines: seq<Line>)
    ensures Relocated(env, branch, lines).Some?
            <==> forall i :: 0 <= i < |lines| ==> |lines[i].key| == 2 && env.warehouseOf(branch, lines[i].key[0]).Some?
    ensures Relocated(env, branch, lines).Some? ==>
              && |Relocated(env, branch, lines).value| == |lines|
              && forall i :: 0 <= i < |lines| ==>
                   var moved := Relocated(env, branch, lines).value[i];
                   && Some(moved.warehouse) == env.warehouseOf(branch, lines[i].key[0]) && moved.sku == lines[i].key[1]
                   && ParseMilli(moved.qty) == Some(lines[i].qty)
  {
    hide FormatMilli, ParseMilli;
    if lines != [] {
      var n := |lines| - 1;
      RelocatedAre(env, branch, lines[..n]);
      assert forall i :: 0 <= i < n ==> lines[..n][i] == lines[i];
      ParseOfFormat(lines[n].qty);
    }
  }

  /** A request that names a branch takes only from the branch's own warehouses. */
  lemma BranchTakesItsOwn(env: Env, branch: string, lines: seq<Line>, i: nat)
    requires branch != "" && Located(env, branch, lines).Some? && i < |Located(env, branch, lines).value|
    ensures exists j :: 0 <= j < |lines| && |lines[j].key| == 2 && env.warehouseOf(branch, lines[j].key[0]).Some?
                        && env.rowOf(env.warehouseOf(branch, lines[j].key[0]).value, lines[j].key[1])
                           == Some(Located(env, branch, lines).value[i].key)
  {
    hide Canonical, Entered, ParseMilli, KeyLess;
    var moved := Relocated(env, branch, lines).value;
    var again := Normalized(moved).value;
    RelocatedAre(env, branch, lines);
    RowsAre(env, again);
    NormalizedNames(moved, again[i].key);
    var j :| 0 <= j < |moved| && again[i].key == [moved[j].warehouse, moved[j].sku];
    assert |lines[j].key| == 2;
  }

  /** Normal lines name only pairs of the request. */
  lemma NormalizedNames(lines: seq<TextLine>, k: Key)
    requires Normalized(lines).Some?
    requires exists i :: 0 <= i < |Normalized(lines).value| && Normalized(lines).value[i].key == k
    ensures exists j :: 0 <= j < |lines| && k == [lines[j].warehouse, lines[j].sku]
  {
    hide ParsedLine, KeyLess, MergeKey, FirstPair, Canonical;
    ParsedLines(lines);
    var parsed := Parsed(lines).value;
    CanonicalIsSorted(Entered(parsed));
    assert k in Keys(Normalized(lines).value);
    var i :| 0 <= i < |parsed| && Entered(parsed)[i].key == k;
    FirstPairIs(parsed, i);
    var j :| 0 <= j <= i && parsed[j].key == k;
    assert k == [lines[j].warehouse, lines[j].sku];
  }

  predicate IsShort(b: Balances, tenant: string, line: Line, s: Shortage) {
    var row := [tenant] + line.key;
    s == Shortage(row, line.qty, Arith.Max(0, Free(b, row))) && line.qty > Free(b, row)
  }

  /** The shortages reported are exactly the lines that do not fit alone, each with what it asks and what
      is free. */
  lemma {:induction false} ShortagesAre(b: Balances, tenant: string, lines: seq<Line>, s: Shortage)
    ensures s in ShortLines(b, tenant, lines)
            <==> exists i :: 0 <= i < |lines| && IsShort(b, tenant, lines[i], s)
  {
    hide Free;
    if lines != [] {
      var n := |lines| - 1;
      var front := lines[..n];
      ShortagesAre(b, tenant, front, s);
      assert forall i :: 0 <= i < n ==> front[i] == lines[i];
      assert s in ShortLines(b, tenant, lines) <==> s in ShortLines(b, tenant, front) || IsShort(b, tenant, lines[n], s);
    }
  }

  // ---- receipts and issues

  /** A receipt is taken exactly when it is something, at a price in range that leaves the money in range;
      then it adds its quantity and moves the average towards its price. */
  lemma ReceiptIs(db: Db, r: Key, qty: nat, cost: nat)
    requires Inv(db)
    ensures var after := ReceiveTx(db, r, qty, cost);
            var onHand, avg := OnHand(db.balances, r), if r in db.balances then db.balances[r].avg else 0;
            var taken := qty > 0 && cost <= Arith.MAX_SAFE
                         && Costing.MoneySafe(onHand + qty, Costing.NewAverage(onHand, avg, qty, cost));
            && after.reservations == db.reservations && after.sales == db.sales
            && (!taken ==> after == db)
            && (taken ==> && OnHand(after.balances, r) == onHand + qty && Reserved(after.balances, r) == Reserved(db.balances, r)
                          && r in after.balances && (onHand == 0 ==> after.balances[r].avg == cost)
                          && Arith.Min(avg, cost) <= after.balances[r].avg <= (if onHand == 0 then cost else Arith.Max(avg, cost))
                          && after.balances == db.balances[r := after.balances[r]])
  {
    hide Costing.NewAverage, Costing.MoneySafe, Costing.Valuation;
    var onHand: nat, avg := if r in db.balances then db.balances[r].onHand else 0, if r in db.balances then db.balances[r].avg else 0;
    if qty > 0 {
      Costing.AverageIsClose(onHand, avg, qty, cost, if onHand == 0 then cost else Arith.Min(avg, cost),
                             if onHand == 0 then cost else Arith.Max(avg, cost));
    }
  }

  /** An issue takes effect exactly when it is free; then it takes just that, at an unchanged average. */
  lemma IssueIs(db: Db, r: Key, qty: nat)
    requires Inv(db)
    ensures var after := IssueTx(db, r, qty);
            && after.reservations == db.reservations && after.sales == db.sales
            && (!(0 < qty <= Free(db.balances, r)) ==> after == db)
            && (0 < qty <= Free(db.balances, r) ==>
                  && OnHand(after.balances, r) == OnHand(db.balances, r) - qty
                  && Reserved(after.balances, r) == Reserved(db.balances, r)
                  && r in db.balances && r in after.balances && after.balances[r].avg == db.balances[r].avg
                  && after.balances == db.balances[r := after.balances[r]])
  {
    hide Costing.Valuation, Costing.MoneySafe;
    assert r in db.balances ==> BalanceOk(db.balances[r]);
  }
}
