/** Locks of concurrent transactions of the two stock stores. */
module LockOrder {
  // Each transaction asks for its locks in the order of its program and keeps them until it commits; a lock
  // that another transaction keeps makes it wait.
  import opened Decimals
  import opened Lines
  import opened Normalize
  import BranchStock
  import WarehouseStock

  /** Reservation rows of either store, the advisory lock of an idempotency key, and stock rows. */
  datatype Resource =
    | Reservation(order: BranchStock.Order)
    | WarehouseReservation(id: string)
    | RequestKey(tenant: string, caller: string, name: string)
    | StockRow(row: Key)
    | BalanceRow(row: Key)

  predicate IsRow(r: Resource) { r.StockRow? || r.BalanceRow? }

  /** One order for all transactions: what is not a stock row first, then rows by key. */
  predicate Before(a: Resource, b: Resource) {
    if !IsRow(a) then IsRow(b)
    else IsRow(b) && (if a.StockRow? then b.BalanceRow? || KeyLess(a.row, b.row) else b.BalanceRow? && KeyLess(a.row, b.row))
  }

  lemma BeforeIsStrict(a: Resource, b: Resource, c: Resource)
    ensures !Before(a, a)
    ensures Before(a, b) && Before(b, c) ==> Before(a, c)
  {
    if IsRow(a) {
      KeyIrreflexive(a.row);
    }
    if IsRow(a) && IsRow(b) && IsRow(c) && KeyLess(a.row, b.row) && KeyLess(b.row, c.row) {
      KeyTransitive(a.row, b.row, c.row);
    }
  }

  /** A row may be asked for again. */
  predicate Ordered(program: seq<Resource>) {
    forall i, j :: 0 <= i < j < |program| ==> program[i] == program[j] || Before(program[i], program[j])
  }

  predicate StrictlyOrdered(program: seq<Resource>) {
    forall i, j :: 0 <= i < j < |program| ==> Before(program[i], program[j])
  }

  // ---- the lock requests of each operation

  function Rows(owner: Key, lines: seq<Line>): seq<Resource> {
    seq(|lines|, i requires 0 <= i < |lines| => StockRow(owner + lines[i].key))
  }

  /** What a transaction locks, given the data it reads under its reservation lock. */
  function Program(db: BranchStock.Db, op: BranchStock.Op): seq<Resource> {
    match op
    case DoReceive(tenant, branch, lines, _) => Rows(BranchStock.Owner(tenant, branch), Canonical(lines))
    case DoReserve(o, branch, lines, _) =>
      [Reservation(o)] + if IsActive(db, o) then [] else Rows(BranchStock.Owner(o.tenant, branch), Canonical(lines))
    case DoRelease(o) => [Reservation(o)] + HoldRows(db, o)
    case DoExpire(o, now) => [Reservation(o)] + if o in db.holds && db.holds[o].expiresAt < now then HoldRows(db, o) else []
    case DoCommit(o, branch, lines) =>
      [Reservation(o)]
      + if IsActive(db, o) then HoldRows(db, o)
        else Rows(BranchStock.Owner(o.tenant, if o in db.holds then db.holds[o].branch else branch), Canonical(lines))
  }

  predicate IsActive(db: BranchStock.Db, o: BranchStock.Order) {
    o in db.holds && (db.holds[o].status.Held? || db.holds[o].status.Committed?)
  }

  function HoldRows(db: BranchStock.Db, o: BranchStock.Order): seq<Resource> {
    if o in db.holds && db.holds[o].status.Held?
    then Rows(BranchStock.Owner(o.tenant, db.holds[o].branch), db.holds[o].lines) else []
  }

  lemma RowsAreOrdered(owner: Key, lines: seq<Line>)
    requires Sorted(lines)
    ensures StrictlyOrdered(Rows(owner, lines))
  {
    forall i, j | 0 <= i < j < |lines|
      ensures Before(Rows(owner, lines)[i], Rows(owner, lines)[j])
    {
      KeyPrefix(owner, lines[i].key, lines[j].key);
    }
  }

  lemma ReservationFirst(o: BranchStock.Order, owner: Key, lines: seq<Line>)
    requires Sorted(lines)
    ensures StrictlyOrdered([Reservation(o)] + Rows(owner, lines))
  {
    hide KeyLess;
    RowsAreOrdered(owner, lines);
    var rows := Rows(owner, lines);
    var all := [Reservation(o)] + rows;
    forall i, j | 0 <= i < j < |all|
      ensures Before(all[i], all[j])
    {
      assert all[j] == rows[j - 1];
      assert i > 0 ==> all[i] == rows[i - 1];
    }
  }

  lemma ReservationAlone(o: BranchStock.Order)
    ensures StrictlyOrdered([Reservation(o)] + [])
  {
  }

  lemma HoldIsOrdered(db: BranchStock.Db, o: BranchStock.Order)
    requires BranchStock.Inv(db)
    ensures StrictlyOrdered([Reservation(o)] + HoldRows(db, o))
  {
    if o in db.holds && db.holds[o].status.Held? {
      ReservationFirst(o, BranchStock.Owner(o.tenant, db.holds[o].branch), db.holds[o].lines);
    }
  }

  /** Every operation, with any lines in any order, asks for its locks in the one order, each once. */
  lemma ProgramsAreOrdered(db: BranchStock.Db, op: BranchStock.Op)
    requires BranchStock.Inv(db)
    ensures StrictlyOrdered(Program(db, op))
  {
    hide StrictlyOrdered, Rows, HoldRows, BranchStock.Inv, Canonical, KeyLess;
    match op
    case DoReceive(tenant, branch, lines, _) =>
      CanonicalIsSorted(lines);
      RowsAreOrdered(BranchStock.Owner(tenant, branch), Canonical(lines));
    case DoReserve(o, branch, lines, _) =>
      CanonicalIsSorted(lines);
      ReservationAlone(o);
      ReservationFirst(o, BranchStock.Owner(o.tenant, branch), Canonical(lines));
    case DoRelease(o) => HoldIsOrdered(db, o);
    case DoExpire(o, _) =>
      ReservationAlone(o);
      HoldIsOrdered(db, o);
    case DoCommit(o, branch, lines) =>
      HoldIsOrdered(db, o);
      CanonicalIsSorted(lines);
      ReservationFirst(o, BranchStock.Owner(o.tenant, if o in db.holds then db.holds[o].branch else branch), Canonical(lines));
  }

  // ---- and of the warehouse store

  function BalanceRows(tenant: string, rows: seq<Key>): seq<Resource> {
    seq(|rows|, i requires 0 <= i < |rows| => BalanceRow([tenant] + rows[i]))
  }

  /** The lines a new reservation walks: as asked, or moved to the branch's warehouses. */
  function WalkedLines(env: WarehouseStock.Env, req: WarehouseStock.Request): seq<Line>
    requires WarehouseStock.Validated(req).None?
  {
    var lines := WarehouseStock.PayloadOf(req).lines;
    if req.branch == "" then lines
    else
      var moved := WarehouseStock.Relocated(env, req.branch, lines);
      if moved.None? || Normalized(moved.value).None? then [] else Normalized(moved.value).value
  }

  /** The rows it locks, up to the first line that is refused. */
  function RowsUntil(env: WarehouseStock.Env, lines: seq<Line>): (rows: seq<Key>)
    ensures |rows| <= |lines|
    ensures forall i :: 0 <= i < |rows| ==> |lines[i].key| == 2 && env.rowOf(lines[i].key[0], lines[i].key[1]) == Some(rows[i])
  {
    if lines == [] || |lines[0].key| != 2 || env.rowOf(lines[0].key[0], lines[0].key[1]).None? then []
    else
      var more := RowsUntil(env, lines[1..]);
      [env.rowOf(lines[0].key[0], lines[0].key[1]).value] + more
  }

  function KeysInOrder(lines: seq<Line>): seq<Key> {
    var sorted := WarehouseStock.InRowOrder(lines);
    seq(|sorted|, i requires 0 <= i < |sorted| => sorted[i].key)
  }

  function LineRows(db: WarehouseStock.Db, tenant: string, id: string): seq<Resource> {
    if id in db.reservations && db.reservations[id].tenant == tenant && db.reservations[id].state.Held?
    then BalanceRows(tenant, KeysInOrder(db.reservations[id].lines)) else []
  }

  predicate KeyIsSpent(db: WarehouseStock.Db, tenant: string, req: WarehouseStock.Request) {
    exists x :: x in db.reservations && WarehouseStock.SameKey(db.reservations[x], tenant, req.caller, Trim(req.key))
  }

  /** What a transaction locks, given the data it reads. */
  function WarehouseProgram(db: WarehouseStock.Db, op: WarehouseStock.Op): seq<Resource> {
    match op
    case DoReserve(tenant, env, req, _, _) =>
      if WarehouseStock.Validated(req).Some? then []
      else [RequestKey(tenant, req.caller, Trim(req.key))]
           + if KeyIsSpent(db, tenant, req) then [] else BalanceRows(tenant, RowsUntil(env, WalkedLines(env, req)))
    case DoCommit(tenant, id) => [WarehouseReservation(id)] + LineRows(db, tenant, id)
    case DoRelease(tenant, id) => [WarehouseReservation(id)] + LineRows(db, tenant, id)
    case DoExpire(tenant, id, _) => [WarehouseReservation(id)] + LineRows(db, tenant, id)
    case DoReceive(r, _, _) => [BalanceRow(r)]
    case DoIssue(r, _) => [BalanceRow(r)]
  }

  predicate Ascending(rows: seq<Key>) {
    forall i, j :: 0 <= i < j < |rows| ==> rows[i] == rows[j] || KeyLess(rows[i], rows[j])
  }

  lemma BalanceRowsAreOrdered(tenant: string, rows: seq<Key>)
    requires Ascending(rows)
    ensures Ordered(BalanceRows(tenant, rows)) && forall r :: r in BalanceRows(tenant, rows) ==> r.BalanceRow?
  {
    forall i, j | 0 <= i < j < |rows|
      ensures BalanceRows(tenant, rows)[i] == BalanceRows(tenant, rows)[j] || Before(BalanceRows(tenant, rows)[i], BalanceRows(tenant, rows)[j])
    {
      KeyPrefix([tenant], rows[i], rows[j]);
    }
  }

  lemma HeaderFirst(header: Resource, rows: seq<Resource>)
    requires !IsRow(header) && Ordered(rows) && forall r :: r in rows ==> IsRow(r)
    ensures Ordered([header] + rows)
  {
    hide KeyLess;
    var all := [header] + rows;
    forall i, j | 0 <= i < j < |all|
      ensures all[i] == all[j] || Before(all[i], all[j])
    {
      assert all[j] == rows[j - 1] && rows[j - 1] in rows;
      assert i > 0 ==> all[i] == rows[i - 1];
    }
  }

  /** Do the ids that lines name come in the order of the rows they mean? So they do when they are the
      rows' own ids, as lower-case UUIDs are. */
  ghost predicate KeepsOrder(env: WarehouseStock.Env) {
    forall a, b, c, d :: KeyLess([a, b], [c, d]) && env.rowOf(a, b).Some? && env.rowOf(c, d).Some?
      ==> env.rowOf(a, b) == env.rowOf(c, d) || KeyLess(env.rowOf(a, b).value, env.rowOf(c, d).value)
  }

  lemma OwnIdsKeepOrder(env: WarehouseStock.Env)
    requires forall w, s :: env.rowOf(w, s).Some? ==> env.rowOf(w, s).value == [w, s]
    ensures KeepsOrder(env)
  {
  }

  lemma RowsUntilAscend(env: WarehouseStock.Env, lines: seq<Line>)
    requires KeepsOrder(env) && Sorted(lines)
    ensures Ascending(RowsUntil(env, lines))
  {
    hide KeyLess, RowsUntil;
    var rows := RowsUntil(env, lines);
    forall i, j | 0 <= i < j < |rows|
      ensures rows[i] == rows[j] || KeyLess(rows[i], rows[j])
    {
      assert lines[i].key == [lines[i].key[0], lines[i].key[1]] && lines[j].key == [lines[j].key[0], lines[j].key[1]];
      assert KeyLess(lines[i].key, lines[j].key);
    }
  }

  lemma WalkedLinesAreSorted(env: WarehouseStock.Env, req: WarehouseStock.Request)
    requires WarehouseStock.Validated(req).None?
    ensures Sorted(WalkedLines(env, req))
  {
    hide Normalized, KeyLess, Trim;
    NormalizedKeys(req.lines);
    if req.branch != "" {
      var moved := WarehouseStock.Relocated(env, req.branch, WarehouseStock.PayloadOf(req).lines);
      if moved.Some? && Normalized(moved.value).Some? {
        NormalizedKeys(moved.value);
      }
    }
  }

  predicate LinesAscend(lines: seq<Line>) {
    forall i, j :: 0 <= i < j < |lines| ==> lines[i].key == lines[j].key || KeyLess(lines[i].key, lines[j].key)
  }

  lemma {:induction false} PlaceAscends(out: seq<Line>, line: Line)
    requires LinesAscend(out)
    ensures LinesAscend(WarehouseStock.Place(out, line))
    ensures forall x :: x in WarehouseStock.Place(out, line) <==> x == line || x in out
  {
    hide KeyLess;
    if out != [] {
      var first, rest := out[0], out[1..];
      assert out == [first] + rest;
      if KeyLess(line.key, first.key) {
        forall i | 0 <= i < |out|
          ensures KeyLess(line.key, out[i].key)
        {
          if i > 0 && out[i].key != first.key {
            KeyTransitive(line.key, first.key, out[i].key);
          }
        }
      } else {
        PlaceAscends(rest, line);
        var tail := WarehouseStock.Place(rest, line);
        if line.key != first.key {
          KeyConnected(line.key, first.key);
        }
        forall i | 0 <= i < |tail|
          ensures first.key == tail[i].key || KeyLess(first.key, tail[i].key)
        {
          assert tail[i] in tail;
          if tail[i] != line {
            var j :| 0 <= j < |rest| && rest[j] == tail[i];
            assert out[j + 1] == tail[i];
          }
        }
      }
    }
  }

  lemma {:induction false} InRowOrderAscends(lines: seq<Line>)
    ensures LinesAscend(WarehouseStock.InRowOrder(lines))
  {
    if lines != [] {
      InRowOrderAscends(lines[..|lines| - 1]);
      PlaceAscends(WarehouseStock.InRowOrder(lines[..|lines| - 1]), lines[|lines| - 1]);
    }
  }

  lemma LineRowsAreOrdered(db: WarehouseStock.Db, tenant: string, id: string)
    ensures Ordered([WarehouseReservation(id)] + LineRows(db, tenant, id))
  {
    hide KeyLess, WarehouseStock.InRowOrder, Ordered;
    if id in db.reservations && db.reservations[id].tenant == tenant && db.reservations[id].state.Held? {
      var lines := db.reservations[id].lines;
      InRowOrderAscends(lines);
      BalanceRowsAreOrdered(tenant, KeysInOrder(lines));
    } else {
      NoRows();
    }
    HeaderFirst(WarehouseReservation(id), LineRows(db, tenant, id));
  }

  lemma NoRows()
    ensures Ordered([])
  {
  }

  /** Every operation of the warehouse store asks for its locks in the one order, if lines name rows in
      their order. */
  lemma WarehouseProgramsAreOrdered(db: WarehouseStock.Db, op: WarehouseStock.Op)
    requires op.DoReserve? ==> KeepsOrder(op.env)
    ensures Ordered(WarehouseProgram(db, op))
  {
    hide KeyLess, KeepsOrder, Trim, WarehouseStock.Validated, RowsUntil, WalkedLines, LineRows, KeyIsSpent;
    match op
    case DoReserve(tenant, env, req, _, _) =>
      if WarehouseStock.Validated(req).None? && !KeyIsSpent(db, tenant, req) {
        var lines := WalkedLines(env, req);
        WalkedLinesAreSorted(env, req);
        RowsUntilAscend(env, lines);
        BalanceRowsAreOrdered(tenant, RowsUntil(env, lines));
        HeaderFirst(RequestKey(tenant, req.caller, Trim(req.key)), BalanceRows(tenant, RowsUntil(env, lines)));
      }
    case DoCommit(tenant, id) => LineRowsAreOrdered(db, tenant, id);
    case DoRelease(tenant, id) => LineRowsAreOrdered(db, tenant, id);
    case DoExpire(tenant, id, _) => LineRowsAreOrdered(db, tenant, id);
    case DoReceive(r, _, _) =>
    case DoIssue(r, _) =>
  }

  // ---- many transactions at once

  /** A transaction that has asked for `program[..pc]` and kept `held` of it (an update that matches
      no row locks nothing). */
  datatype Tx = Tx(program: seq<Resource>, pc: nat, held: set<Resource>, done: bool)

  predicate WellFormed(t: Tx) {
    && t.pc <= |t.program| && Ordered(t.program)
    && (forall r :: r in t.held ==> r in t.program[..t.pc])
    && (t.done ==> t.held == {})
  }

  /** Can transaction `i` take its next step: commit, or ask for a lock nobody else keeps? */
  predicate Enabled(s: seq<Tx>, i: nat)
    requires i < |s|
  {
    && !s[i].done
    && (s[i].pc < |s[i].program| ==> forall j :: 0 <= j < |s| && j != i ==> s[i].program[s[i].pc] !in s[j].held)
  }

  function Advance(t: Tx, locks: bool): Tx
    requires t.pc <= |t.program|
  {
    if t.pc == |t.program| then t.(done := true, held := {})
    else t.(pc := t.pc + 1, held := if locks then t.held + {t.program[t.pc]} else t.held)
  }

  /** Nobody keeps what another keeps. */
  ghost predicate AllWellFormed(s: seq<Tx>) {
    && (forall i :: 0 <= i < |s| ==> WellFormed(s[i]))
    && (forall i, j, r :: 0 <= i < |s| && 0 <= j < |s| && i != j && r in s[i].held ==> r !in s[j].held)
  }

  /** A schedule is a list of attempted steps (transaction, whether the request locks a row); an
      attempt that has to wait changes nothing. */
  function Play(s: seq<Tx>, schedule: seq<(nat, bool)>): (s': seq<Tx>)
    ensures |s'| == |s|
  {
    if schedule == [] then s else
      var mid, step := Play(s, schedule[..|schedule| - 1]), schedule[|schedule| - 1];
      if step.0 < |mid| && Enabled(mid, step.0) && mid[step.0].pc <= |mid[step.0].program|
      then mid[step.0 := Advance(mid[step.0], step.1)] else mid
  }

  lemma {:induction false} ScheduleKeeps(s: seq<Tx>, schedule: seq<(nat, bool)>)
    requires AllWellFormed(s)
    ensures AllWellFormed(Play(s, schedule))
  {
    if schedule != [] {
      var mid, step := Play(s, schedule[..|schedule| - 1]), schedule[|schedule| - 1];
      ScheduleKeeps(s, schedule[..|schedule| - 1]);
    }
  }

  function Wants(t: Tx): Resource
    requires t.pc < |t.program|
  {
    t.program[t.pc]
  }

  predicate Waiting(s: seq<Tx>, i: nat)
    requires i < |s|
  {
    !s[i].done && s[i].pc < |s[i].program| && !Enabled(s, i)
  }

  /** A waiting transaction waits for one that either can go on or waits for a later resource. */
  lemma WaitsUpwards(s: seq<Tx>, i: nat) returns (j: nat)
    requires AllWellFormed(s) && i < |s| && Waiting(s, i)
    ensures j < |s| && !s[j].done && (Enabled(s, j) || (Waiting(s, j) && Before(Wants(s[i]), Wants(s[j]))))
  {
    j :| 0 <= j < |s| && j != i && s[i].program[s[i].pc] in s[j].held;
    var k :| 0 <= k < |s[j].program[..s[j].pc]| && s[j].program[..s[j].pc][k] == Wants(s[i]);
    assert s[j].program[k] == Wants(s[i]);
  }

  /** Following the waits climbs the order, and a strictly climbing chain visits each transaction at
      most once, so it ends at one that can go on. */
  lemma {:induction false} Climb(s: seq<Tx>, i: nat, above: set<int>) returns (e: nat)
    requires AllWellFormed(s) && i < |s| && Waiting(s, i)
    requires forall x :: 0 <= x < |s| && Waiting(s, x) && Before(Wants(s[i]), Wants(s[x])) ==> x in above
    ensures e < |s| && Enabled(s, e)
    decreases |above|
  {
    var j := WaitsUpwards(s, i);
    if Enabled(s, j) {
      e := j;
    } else {
      forall x | 0 <= x < |s| && Waiting(s, x) && Before(Wants(s[j]), Wants(s[x]))
        ensures x in above - {j as int}
      {
        BeforeIsStrict(Wants(s[i]), Wants(s[j]), Wants(s[x]));
        BeforeIsStrict(Wants(s[j]), Wants(s[j]), Wants(s[j]));
      }
      e := Climb(s, j, above - {j as int});
    }
  }

  function Indices(n: nat): (r: set<int>)
    ensures forall x :: x in r <==> 0 <= x < n
  {
    if n == 0 then {} else Indices(n - 1) + {n - 1}
  }

  /** No schedule of transactions with ordered programs gets stuck. */
  lemma OrderedNeverStuck(s: seq<Tx>, schedule: seq<(nat, bool)>)
    requires forall i :: 0 <= i < |s| ==> Ordered(s[i].program) && s[i] == Tx(s[i].program, 0, {}, false)
    ensures var s' := Play(s, schedule);
            (exists i :: 0 <= i < |s'| && !s'[i].done) ==> exists e :: 0 <= e < |s'| && Enabled(s', e)
  {
    ScheduleKeeps(s, schedule);
    var s' := Play(s, schedule);
    if i :| 0 <= i < |s'| && !s'[i].done {
      if !Enabled(s', i) {
        var e := Climb(s', i, Indices(|s'|));
      }
    }
  }

  /** Nor does any schedule of warehouse-store transactions, as long as lines name rows in their order. */
  lemma WarehouseNeverStuck(dbs: seq<WarehouseStock.Db>, ops: seq<WarehouseStock.Op>, s: seq<Tx>, schedule: seq<(nat, bool)>)
    requires |dbs| == |ops| == |s|
    requires forall i :: 0 <= i < |s| ==>
               s[i] == Tx(WarehouseProgram(dbs[i], ops[i]), 0, {}, false) && (ops[i].DoReserve? ==> KeepsOrder(ops[i].env))
    ensures var s' := Play(s, schedule);
            (exists i :: 0 <= i < |s'| && !s'[i].done) ==> exists e :: 0 <= e < |s'| && Enabled(s', e)
  {
    hide WarehouseProgram, KeepsOrder, Play, Enabled;
    forall i | 0 <= i < |s|
      ensures Ordered(s[i].program)
    {
      WarehouseProgramsAreOrdered(dbs[i], ops[i]);
    }
    OrderedNeverStuck(s, schedule);
  }

  /** No schedule of any number of branch-store transactions gets stuck: as long as one is not
      committed, one of them can take its next step. */
  lemma NeverStuck(dbs: seq<BranchStock.Db>, ops: seq<BranchStock.Op>, s: seq<Tx>, schedule: seq<(nat, bool)>)
    requires |dbs| == |ops| == |s|
    requires forall i :: 0 <= i < |s| ==> BranchStock.Inv(dbs[i]) && s[i] == Tx(Program(dbs[i], ops[i]), 0, {}, false)
    ensures var s' := Play(s, schedule);
            (exists i :: 0 <= i < |s'| && !s'[i].done) ==> exists e :: 0 <= e < |s'| && Enabled(s', e)
  {
    hide Program, Play, Enabled;
    forall i | 0 <= i < |s|
      ensures Ordered(s[i].program)
    {
      ProgramsAreOrdered(dbs[i], ops[i]);
    }
    OrderedNeverStuck(s, schedule);
  }
}
