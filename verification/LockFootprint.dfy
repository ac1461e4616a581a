/** The locks of a transaction cover what it changes and are kept until it ends; no two transactions
    keep one lock at the same time. */
module LockFootprint {
  import opened Decimals
  import opened Lines
  import opened LockOrder
  import opened Normalize
  import BranchAnswers
  import BranchStock
  import WarehouseAnswers
  import WarehouseStock

  // ---- the branch store

  /** Is this the stock row of one of the lines? */
  ghost predicate RowOf(x: Resource, owner: Key, lines: seq<Line>) { exists k :: k in Keys(lines) && x == StockRow(owner + k) }

  lemma RowsAre(owner: Key, lines: seq<Line>, x: Resource)
    ensures x in Rows(owner, lines) <==> RowOf(x, owner, lines)
  {
    var rows := Rows(owner, lines);
    if x in rows {
      var i :| 0 <= i < |rows| && rows[i] == x;
      assert lines[i].key in Keys(lines);
    }
    if k :| k in Keys(lines) && x == StockRow(owner + k) {
      var i :| 0 <= i < |lines| && lines[i].key == k;
      assert rows[i] == x;
    }
  }

  /** A transaction asks for its reservation row and the stock rows of its lines, and for nothing more: of
      the lines sent, or of the hold's own when it is to be given back or deducted. */
  lemma ProgramIs(db: BranchStock.Db, op: BranchStock.Op, x: Resource)
    ensures x in Program(db, op) <==>
            match op
            case DoReceive(tenant, branch, lines, _) => RowOf(x, [tenant, branch], lines)
            case DoReserve(o, branch, lines, _) =>
              x == Reservation(o) || (!BranchAnswers.Active(db, o) && RowOf(x, [o.tenant, branch], lines))
            case DoRelease(o) => x == Reservation(o) || OfHeld(db, o, x)
            case DoExpire(o, now) => x == Reservation(o) || (OfHeld(db, o, x) && db.holds[o].expiresAt < now)
            case DoCommit(o, branch, lines) =>
              || x == Reservation(o) || OfHeld(db, o, x)
              || (!BranchAnswers.Active(db, o) && RowOf(x, [o.tenant, if o in db.holds then db.holds[o].branch else branch], lines))
  {
    hide Rows, RowOf, Canonical, KeyLess;
    match op
    case DoReceive(tenant, branch, lines, _) => LinesAre(BranchStock.Owner(tenant, branch), lines, x);
    case DoReserve(o, branch, lines, _) => LinesAre(BranchStock.Owner(o.tenant, branch), lines, x);
    case DoRelease(o) => HoldRowsAre(db, o, x);
    case DoExpire(o, now) => HoldRowsAre(db, o, x);
    case DoCommit(o, branch, lines) =>
      HoldRowsAre(db, o, x);
      LinesAre(BranchStock.Owner(o.tenant, if o in db.holds then db.holds[o].branch else branch), lines, x);
  }

  ghost predicate OfHeld(db: BranchStock.Db, o: BranchStock.Order, x: Resource) {
    o in db.holds && db.holds[o].status.Held? && RowOf(x, [o.tenant, db.holds[o].branch], db.holds[o].lines)
  }

  lemma LinesAre(owner: Key, lines: seq<Line>, x: Resource)
    ensures x in Rows(owner, Canonical(lines)) <==> RowOf(x, owner, lines)
  {
    RowsAre(owner, Canonical(lines), x);
    CanonicalIsSorted(lines);
  }

  lemma HoldRowsAre(db: BranchStock.Db, o: BranchStock.Order, x: Resource)
    ensures x in HoldRows(db, o) <==> OfHeld(db, o, x)
  {
    if o in db.holds {
      RowsAre(BranchStock.Owner(o.tenant, db.holds[o].branch), db.holds[o].lines, x);
    }
  }

  /** Whatever a transaction changes, it has locked: every stock row and every hold. */
  lemma ChangesAreLocked(db: BranchStock.Db, op: BranchStock.Op, r: Key, o: BranchStock.Order)
    requires BranchStock.Inv(db)
    ensures var after := BranchStock.Step(db, op);
            && (BranchStock.Get(after.books.stock, r) != BranchStock.Get(db.books.stock, r) ==> StockRow(r) in Program(db, op))
            && ((o in after.holds) != (o in db.holds) || (o in db.holds && after.holds[o] != db.holds[o])
                ==> Reservation(o) in Program(db, op))
  {
    hide BranchStock.PostAll, Canonical, KeyLess, BranchStock.Shortages, Program, RowOf, SameDemand, BranchStock.Crashes,
         BranchStock.LedgerOk, BranchStock.HeldOf;
    ProgramIs(db, op, StockRow(r));
    ProgramIs(db, op, Reservation(o));
    match op
    case DoReceive(tenant, branch, lines, ref) =>
      PostedIsAsked(BranchStock.Receiving, db.books, BranchStock.Owner(tenant, branch), lines, ref, r);
    case DoReserve(x, branch, lines, _) =>
      PostedIsAsked(BranchStock.Holding, db.books, BranchStock.Owner(x.tenant, branch), lines, x.id, r);
    case DoRelease(x) => ClosedIsAsked(BranchStock.GivingBack, db, x, r);
    case DoExpire(x, _) => ClosedIsAsked(BranchStock.GivingBack, db, x, r);
    case DoCommit(x, branch, lines) =>
      ClosedIsAsked(BranchStock.Deducting, db, x, r);
      PostedIsAsked(BranchStock.Late, db.books, BranchStock.Owner(x.tenant, if x in db.holds then db.holds[x].branch else branch),
                    lines, x.id, r);
  }

  lemma PostedIsAsked(mode: BranchStock.Mode, b: BranchStock.Books, owner: Key, lines: seq<Line>, ref: string, r: Key)
    ensures BranchStock.Get(BranchStock.PostAll(mode, b, owner, Canonical(lines), ref).stock, r) != BranchStock.Get(b.stock, r)
            ==> RowOf(StockRow(r), owner, lines)
  {
    hide Canonical, KeyLess, BranchStock.PostAll;
    CanonicalIsSorted(lines);
    BranchStock.PostedRow(mode, b, owner, Canonical(lines), ref, r);
    if owner <= r {
      assert r == owner + r[|owner|..];
    }
  }

  lemma ClosedIsAsked(mode: BranchStock.Mode, db: BranchStock.Db, o: BranchStock.Order, r: Key)
    requires BranchStock.HoldsOk(db.holds)
    ensures o in db.holds && db.holds[o].status.Held? ==>
              var h := db.holds[o];
              var owner := BranchStock.Owner(o.tenant, h.branch);
              BranchStock.Get(BranchStock.PostAll(mode, db.books, owner, h.lines, o.id).stock, r) != BranchStock.Get(db.books.stock, r)
              ==> OfHeld(db, o, StockRow(r))
  {
    hide KeyLess, BranchStock.PostAll;
    if o in db.holds {
      var owner := BranchStock.Owner(o.tenant, db.holds[o].branch);
      BranchStock.PostedRow(mode, db.books, owner, db.holds[o].lines, o.id, r);
      if owner <= r {
        assert r == owner + r[|owner|..];
      }
    }
  }

  // ---- the warehouse store

  lemma {:induction false} InRowOrderHas(lines: seq<Line>, x: Line)
    ensures x in WarehouseStock.InRowOrder(lines) <==> x in lines
  {
    if lines != [] {
      var front := lines[..|lines| - 1];
      InRowOrderHas(front, x);
      InRowOrderAscends(front);
      PlaceAscends(WarehouseStock.InRowOrder(front), lines[|lines| - 1]);
      assert lines == front + [lines[|lines| - 1]];
    }
  }

  /** The rows locked for a HELD reservation are those of its lines. */
  lemma LineRowsAre(db: WarehouseStock.Db, tenant: string, id: string, x: Resource)
    ensures x in LineRows(db, tenant, id)
            <==> && WarehouseAnswers.Has(db, tenant, id) && db.reservations[id].state.Held?
                 && exists k :: k in Keys(db.reservations[id].lines) && x == BalanceRow([tenant] + k)
  {
    hide WarehouseStock.InRowOrder;
    if WarehouseAnswers.Has(db, tenant, id) && db.reservations[id].state.Held? {
      var lines := db.reservations[id].lines;
      var sorted, keys := WarehouseStock.InRowOrder(lines), KeysInOrder(lines);
      var rows := BalanceRows(tenant, keys);
      if x in rows {
        var i :| 0 <= i < |rows| && rows[i] == x;
        InRowOrderHas(lines, sorted[i]);
        assert sorted[i].key in Keys(lines);
      }
      if k :| k in Keys(lines) && x == BalanceRow([tenant] + k) {
        var i :| 0 <= i < |lines| && lines[i].key == k;
        InRowOrderHas(lines, lines[i]);
        var j :| 0 <= j < |sorted| && sorted[j] == lines[i];
        assert rows[j] == x;
      }
    }
  }

  /** A line that is asked of a row names it. */
  lemma AskedNames(tenant: string, lines: seq<Line>, r: Key)
    requires WarehouseStock.Asked(tenant, lines, r) != 0
    ensures exists k :: k in Keys(lines) && r == [tenant] + k
  {
    assert r == [tenant] + r[1..];
    if r[1..] !in Keys(lines) {
      TotalElsewhere(lines, r[1..]);
    }
  }

  /** When every line has a row, all of them are locked. */
  lemma {:induction false} AllRowsLocked(env: WarehouseStock.Env, lines: seq<Line>)
    requires forall i :: 0 <= i < |lines| ==> |lines[i].key| == 2 && env.rowOf(lines[i].key[0], lines[i].key[1]).Some?
    ensures |RowsUntil(env, lines)| == |lines|
  {
    if lines != [] {
      AllRowsLocked(env, lines[1..]);
    }
  }

  /** A new reservation has locked the rows of all its lines. */
  lemma LocatedAreLocked(env: WarehouseStock.Env, req: WarehouseStock.Request, tenant: string, k: Key)
    requires WarehouseStock.Validated(req).None?
    requires var rows := WarehouseStock.Located(env, req.branch, WarehouseStock.PayloadOf(req).lines);
             rows.Some? && k in Keys(rows.value)
    ensures BalanceRow([tenant] + k) in BalanceRows(tenant, RowsUntil(env, WalkedLines(env, req)))
  {
    hide Normalized, Trim, RowsUntil, WarehouseStock.Rows;
    var lines := WalkedLines(env, req);
    var rows := WarehouseStock.Located(env, req.branch, WarehouseStock.PayloadOf(req).lines).value;
    assert WarehouseStock.Rows(env, lines) == Some(rows);
    WarehouseAnswers.RowsAre(env, lines);
    AllRowsLocked(env, lines);
    var i :| 0 <= i < |rows| && rows[i].key == k;
    assert RowsUntil(env, lines)[i] == k;
    assert BalanceRows(tenant, RowsUntil(env, lines))[i] == BalanceRow([tenant] + k);
  }

  /** Whatever a transaction changes, it has locked: balance rows, reservations that exist, and the request
      key of a new one. */
  lemma WarehouseChangesAreLocked(db: WarehouseStock.Db, op: WarehouseStock.Op, r: Key)
    ensures var after, locks := WarehouseStock.Step(db, op), WarehouseProgram(db, op);
            && ((r in after.balances) != (r in db.balances) || (r in db.balances && after.balances[r] != db.balances[r])
                ==> BalanceRow(r) in locks)
            && (!op.DoReserve? && after.reservations != db.reservations ==> WarehouseReservation(op.id) in locks)
            && (op.DoReserve? && after != db ==> RequestKey(op.tenant, op.req.caller, Trim(op.req.key)) in locks)
            && (op.DoReceive? || op.DoIssue? ==> after.reservations == db.reservations)
  {
    hide WarehouseStock.Asked, WarehouseStock.InRowOrder, WarehouseStock.SalesOf, WarehouseStock.Located, WarehouseStock.ShortLines,
         WarehouseStock.Validated, WarehouseStock.Available, Trim, WarehouseStock.ExpiryOf, RowsUntil, WalkedLines, LineRows, BalanceRows,
         WarehouseStock.PayloadOf, WarehouseStock.SameKey;
    match op
    case DoReserve(tenant, env, req, x, now) => ReserveIsLocked(db, env, tenant, req, x, now, r);
    case DoCommit(tenant, x) => LinesAreLocked(db, tenant, x, r);
    case DoRelease(tenant, x) => LinesAreLocked(db, tenant, x, r);
    case DoExpire(tenant, x, _) => LinesAreLocked(db, tenant, x, r);
    case DoReceive(x, _, _) =>
    case DoIssue(x, _) =>
  }

  lemma LinesAreLocked(db: WarehouseStock.Db, tenant: string, id: string, r: Key)
    ensures (&& WarehouseAnswers.Has(db, tenant, id) && db.reservations[id].state.Held?
             && WarehouseStock.Asked(tenant, db.reservations[id].lines, r) != 0)
            ==> BalanceRow(r) in LineRows(db, tenant, id)
  {
    hide WarehouseStock.Asked, LineRows;
    if WarehouseAnswers.Has(db, tenant, id) && WarehouseStock.Asked(tenant, db.reservations[id].lines, r) != 0 {
      AskedNames(tenant, db.reservations[id].lines, r);
      LineRowsAre(db, tenant, id, BalanceRow(r));
    }
  }

  lemma ReserveIsLocked(db: WarehouseStock.Db, env: WarehouseStock.Env, tenant: string, req: WarehouseStock.Request, id: string,
                        now: int, r: Key)
    ensures var (after, answer) := WarehouseStock.ReserveTx(db, env, tenant, req, id, now);
            var locks := WarehouseProgram(db, WarehouseStock.DoReserve(tenant, env, req, id, now));
            && ((r in after.balances) != (r in db.balances) || (r in db.balances && after.balances[r] != db.balances[r])
                ==> BalanceRow(r) in locks)
            && (after != db ==> RequestKey(tenant, req.caller, Trim(req.key)) in locks)
  {
    hide WarehouseStock.Asked, WarehouseStock.Located, WarehouseStock.ShortLines, WarehouseStock.Validated, WarehouseStock.Available,
         Trim, WarehouseStock.ExpiryOf, RowsUntil, WalkedLines, BalanceRows, WarehouseStock.PayloadOf, WarehouseStock.SameKey;
    var (after, answer) := WarehouseStock.ReserveTx(db, env, tenant, req, id, now);
    if answer.Created? {
      var rows := WarehouseStock.Located(env, req.branch, WarehouseStock.PayloadOf(req).lines).value;
      if WarehouseStock.Asked(tenant, rows, r) != 0 {
        AskedNames(tenant, rows, r);
        var k :| k in Keys(rows) && r == [tenant] + k;
        LocatedAreLocked(env, req, tenant, k);
      }
    }
  }

  // ---- locks are exclusive and kept

  /** At any moment of any schedule no lock is kept by two transactions, and one that has ended keeps none. */
  lemma LocksAreExclusive(s: seq<Tx>, schedule: seq<(nat, bool)>, i: nat, j: nat, r: Resource)
    requires forall x :: 0 <= x < |s| ==> Ordered(s[x].program) && s[x] == Tx(s[x].program, 0, {}, false)
    requires i < |s| && j < |s|
    ensures var later := Play(s, schedule);
            && (r in later[i].held && r in later[j].held ==> i == j)
            && (r in later[i].held ==> !later[i].done && r in later[i].program)
  {
    hide Play, Ordered;
    ScheduleKeeps(s, schedule);
  }

  /** What an attempted step does: nothing when its lock is kept by another; otherwise the lock is taken and
      added to what is kept, and with no lock left to ask for the transaction ends and drops them all. */
  lemma StepIs(s: seq<Tx>, schedule: seq<(nat, bool)>, i: nat, locks: bool)
    requires AllWellFormed(s) && i < |s|
    ensures var now, next := Play(s, schedule), Play(s, schedule + [(i, locks)]);
            var t := now[i];
            var blocked := t.pc < |t.program| && exists j :: 0 <= j < |now| && j != i && t.program[t.pc] in now[j].held;
            && (forall j :: 0 <= j < |now| && j != i ==> next[j] == now[j])
            && (t.done || blocked ==> next == now)
            && (!t.done && !blocked && t.pc < |t.program| ==>
                  && next[i].pc == t.pc + 1 && !next[i].done && next[i].program == t.program
                  && next[i].held == if locks then t.held + {t.program[t.pc]} else t.held)
            && (!t.done && !blocked && t.pc == |t.program| ==> next[i].done && next[i].held == {})
  {
    ScheduleKeeps(s, schedule);
    assert (schedule + [(i, locks)])[..|schedule|] == schedule;
  }
}
