/** The warehouse store: balances, reservations with idempotency keys and expiry, and the ledger of sales. */
module WarehouseStock {
  // Balances are per (tenant, warehouse, SKU), quantities are thousandths. Every operation is one
  // transaction, taken as atomic.
  import opened Decimals
  import opened Lines
  import opened Normalize
  import Arith
  import Costing
  import Lex
  import Sums

  datatype Balance = Balance(onHand: nat, reserved: int, avg: nat, valuation: nat)
  datatype State = Held | Committed | Released | Expired

  /** What the request hash covers. The hash itself is taken as injective, so the model keeps its
      input; quantities enter it as text, which is injective too (`FormatIsInjective`). */
  datatype Payload = Payload(caller: string, refType: string, refId: string, branch: string, noExpiry: bool,
                             lines: seq<Line>)

  datatype Reservation = Reservation(tenant: string, key: string, payload: Payload, state: State,
                                     expiresAt: Option<int>, lines: seq<Line>)

  /** One `SALE_COMMIT` ledger row. */
  datatype Sale = Sale(reservation: string, row: Key, before: int, delta: int)

  type Balances = map<Key, Balance>
  type Reservations = map<string, Reservation>

  datatype Db = Db(balances: Balances, reservations: Reservations, sales: seq<Sale>)

  const EMPTY := Db(map[], map[], [])

  function OnHand(b: Balances, r: Key): int { if r in b then b[r].onHand else 0 }

  function Reserved(b: Balances, r: Key): int { if r in b then b[r].reserved else 0 }

  function Free(b: Balances, r: Key): int { OnHand(b, r) - Reserved(b, r) }

  /** The stock row of a reservation line: the tenant in front of its (warehouse, SKU). */
  function Row(tenant: string, line: Line): Key { [tenant] + line.key }

  function Asked(tenant: string, lines: seq<Line>, r: Key): int {
    if r != [] && r[0] == tenant then Total(lines, r[1..]) else 0
  }

  function Reserving(v: Reservation, r: Key): int {
    if v.state.Held? then Asked(v.tenant, v.lines, r) else 0
  }

  /** The quantity of a row in the lines of HELD reservations. */
  ghost function HeldOf(vs: Reservations, r: Key): int {
    Sums.Sum(map id | id in vs :: Reserving(vs[id], r))
  }

  function Sold(sales: seq<Sale>, id: string, r: Key): int {
    if sales == [] then 0 else
      var s := sales[|sales| - 1];
      Sold(sales[..|sales| - 1], id, r) + (if s.reservation == id && s.row == r then s.delta else 0)
  }

  // ---- the invariant

  ghost predicate BalanceOk(b: Balance) {
    && 0 <= b.reserved <= b.onHand
    && Costing.MoneySafe(b.onHand, b.avg)
    && b.valuation == Costing.Valuation(b.onHand, b.avg)
  }

  ghost predicate BalancesOk(b: Balances) { forall r :: r in b ==> BalanceOk(b[r]) }

  ghost predicate LinesOk(vs: Reservations) { forall id :: id in vs ==> Positive(vs[id].lines) }

  /** `reserved` is exactly what the HELD reservations ask for. */
  ghost predicate ReservedOk(b: Balances, vs: Reservations) {
    forall r :: HeldOf(vs, r) == Reserved(b, r)
  }

  predicate SameKey(v: Reservation, tenant: string, caller: string, key: string) {
    v.tenant == tenant && v.payload.caller == caller && v.key == key
  }

  /** One reservation per (tenant, caller, idempotency key). */
  ghost predicate KeysOk(vs: Reservations) {
    forall x, y :: x in vs && y in vs && SameKey(vs[x], vs[y].tenant, vs[y].payload.caller, vs[y].key) ==> x == y
  }

  function Due(vs: Reservations, id: string, r: Key): int {
    if id in vs && vs[id].state.Committed? then -Asked(vs[id].tenant, vs[id].lines, r) else 0
  }

  /** The ledger deducts each committed reservation's lines once, and nothing for any other. */
  ghost predicate SalesOk(sales: seq<Sale>, vs: Reservations) {
    forall id, r :: Sold(sales, id, r) == Due(vs, id, r)
  }

  ghost predicate Inv(db: Db) {
    && BalancesOk(db.balances) && LinesOk(db.reservations)
    && ReservedOk(db.balances, db.reservations)
    && KeysOk(db.reservations)
    && SalesOk(db.sales, db.reservations)
  }

  // ---- what lines do to the balances

  /** Adds to `reserved`, or takes away, what the lines ask of each row. */
  function Shift(b: Balances, tenant: string, lines: seq<Line>, sign: int): Balances {
    map r | r in b :: b[r].(reserved := b[r].reserved + sign * Asked(tenant, lines, r))
  }

  /** Deducts what the lines ask from on hand and reserved; the average stays, the valuation follows. */
  function Deduct(b: Balances, tenant: string, lines: seq<Line>): Balances {
    map r | r in b ::
      var q := Asked(tenant, lines, r);
      if 0 < q <= b[r].onHand && q <= b[r].reserved
      then Balance(b[r].onHand - q, b[r].reserved - q, b[r].avg, Costing.Valuation(b[r].onHand - q, b[r].avg))
      else b[r]
  }

  /** The ledger rows of a commit, each with the on-hand quantity it found. */
  function SalesOf(b: Balances, id: string, tenant: string, lines: seq<Line>): seq<Sale> {
    seq(|lines|, i requires 0 <= i < |lines| =>
      Sale(id, Row(tenant, lines[i]), OnHand(b, Row(tenant, lines[i])) - Total(lines[..i], lines[i].key), -lines[i].qty))
  }

  /** Every row the lines touch has that much reserved, hence on hand. */
  ghost predicate Covered(b: Balances, tenant: string, lines: seq<Line>) {
    forall r :: Asked(tenant, lines, r) <= Reserved(b, r)
  }

  ghost predicate Available(b: Balances, tenant: string, lines: seq<Line>) {
    forall r :: Asked(tenant, lines, r) <= Free(b, r)
  }

  lemma AskedOfRow(tenant: string, lines: seq<Line>, line: Line)
    ensures Asked(tenant, lines, Row(tenant, line)) == Total(lines, line.key)
  {
    assert Row(tenant, line)[1..] == line.key;
  }

  lemma AskedIsNonNegative(tenant: string, lines: seq<Line>, r: Key)
    requires Positive(lines)
    ensures Asked(tenant, lines, r) >= 0
  {
    if r != [] {
      TotalIsPositive(lines, r[1..]);
    }
  }

  /** One more line asks more of its own row only. */
  lemma AskedStep(tenant: string, lines: seq<Line>, n: nat, r: Key)
    requires n < |lines|
    ensures Asked(tenant, lines[..n + 1], r)
            == Asked(tenant, lines[..n], r) + (if r == Row(tenant, lines[n]) then lines[n].qty else 0)
  {
    assert lines[..n + 1][..n] == lines[..n];
    if r != [] && r[0] == tenant {
      assert r == [tenant] + r[1..];
      assert Row(tenant, lines[n])[1..] == lines[n].key;
    } else {
      assert Row(tenant, lines[n])[0] == tenant;
    }
  }

  lemma {:induction false} AskedPrefix(tenant: string, lines: seq<Line>, n: nat, r: Key)
    requires Positive(lines) && n <= |lines|
    ensures Asked(tenant, lines[..n], r) <= Asked(tenant, lines, r)
    decreases |lines| - n
  {
    if n < |lines| {
      AskedStep(tenant, lines, n, r);
      AskedPrefix(tenant, lines, n + 1, r);
    } else {
      assert lines[..n] == lines;
    }
  }

  // ---- the sums follow

  lemma HeldAfterWrite(vs: Reservations, id: string, v: Reservation, r: Key)
    ensures HeldOf(vs[id := v], r) == HeldOf(vs, r) + Reserving(v, r) - (if id in vs then Reserving(vs[id], r) else 0)
  {
    var m := map x | x in vs :: Reserving(vs[x], r);
    var vs' := vs[id := v];
    assert (map x | x in vs' :: Reserving(vs'[x], r)) == m[id := Reserving(v, r)];
    Sums.Write(m, id, Reserving(v, r));
  }

  /** A HELD reservation is covered: the guarded updates of commit, release and expiry never miss. */
  lemma HeldIsCovered(db: Db, id: string)
    requires LinesOk(db.reservations) && ReservedOk(db.balances, db.reservations)
    requires id in db.reservations && db.reservations[id].state.Held?
    ensures Covered(db.balances, db.reservations[id].tenant, db.reservations[id].lines)
  {
    var vs := db.reservations;
    forall r
      ensures Asked(vs[id].tenant, vs[id].lines, r) <= Reserved(db.balances, r)
    {
      var m := map x | x in vs :: Reserving(vs[x], r);
      forall x | x in m
        ensures m[x] >= 0
      {
        AskedIsNonNegative(vs[x].tenant, vs[x].lines, r);
      }
      Sums.Bounds(m, id);
      assert HeldOf(vs, r) == Reserved(db.balances, r);
    }
  }

  lemma {:induction false} SoldAppend(a: seq<Sale>, b: seq<Sale>, id: string, r: Key)
    ensures Sold(a + b, id, r) == Sold(a, id, r) + Sold(b, id, r)
  {
    if b == [] {
      assert a + b == a;
    } else {
      assert (a + b)[..|a + b| - 1] == a + b[..|b| - 1];
      SoldAppend(a, b[..|b| - 1], id, r);
    }
  }

  lemma {:induction false} SoldOfCommit(b: Balances, id: string, tenant: string, lines: seq<Line>, x: string, r: Key)
    ensures Sold(SalesOf(b, id, tenant, lines), x, r) == if x == id then -Asked(tenant, lines, r) else 0
  {
    if lines != [] {
      var n := |lines| - 1;
      var sales := SalesOf(b, id, tenant, lines);
      assert sales[..n] == SalesOf(b, id, tenant, lines[..n]) by {
        assert forall i :: 0 <= i < n ==> lines[..n][..i] == lines[..i];
      }
      SoldOfCommit(b, id, tenant, lines[..n], x, r);
      AskedStep(tenant, lines, n, r);
      assert lines[..n + 1] == lines;
    }
  }

  // ---- the transactions

  /** A request to reserve; an empty branch stands for none. */
  datatype Request = Request(key: string, caller: string, refType: string, refId: string, branch: string,
                             noExpiry: bool, ttlSeconds: int, lines: seq<TextLine>)

  /** What the other tables say. `warehouseOf(branch, named)` is the branch's own warehouse that a line
      resolves to, `rowOf(warehouse, sku)` the (warehouse, SKU) row that two texts name: the catalogue
      accepts a SKU's id or its code, and ids compare as UUIDs, whatever their letter case. Nothing
      means refused. */
  datatype Env = Env(warehouseOf: (string, string) -> Option<string>, rowOf: (string, string) -> Option<Key>)

  datatype Shortage = Shortage(row: Key, requested: int, available: int)

  datatype Refusal = MissingKey | InvalidQuantity | BranchRequired | Conflict | NotAllowed | NotFound | WrongState
    | Insufficient(shortages: seq<Shortage>)

  datatype Outcome = Created(id: string) | Replayed(id: string) | Refused(why: Refusal) | Crashed | Done

  function Relocated(env: Env, branch: string, lines: seq<Line>): Option<seq<TextLine>> {
    if lines == [] then Some([]) else
      var front, line := Relocated(env, branch, lines[..|lines| - 1]), lines[|lines| - 1];
      if front.None? || |line.key| != 2 || env.warehouseOf(branch, line.key[0]).None? then None
      else Some(front.value + [TextLine(env.warehouseOf(branch, line.key[0]).value, line.key[1], FormatMilli(line.qty))])
  }

  function Rows(env: Env, lines: seq<Line>): (r: Option<seq<Line>>)
    ensures r.Some? ==> |r.value| == |lines| && forall i :: 0 <= i < |lines| ==> r.value[i].qty == lines[i].qty
  {
    if lines == [] then Some([]) else
      var front, line := Rows(env, lines[..|lines| - 1]), lines[|lines| - 1];
      if front.None? || |line.key| != 2 || env.rowOf(line.key[0], line.key[1]).None? then None
      else Some(front.value + [Line(env.rowOf(line.key[0], line.key[1]).value, line.qty)])
  }

  /** The lines on actual stock rows: relocated to the branch's warehouses if it names a branch, then
      located one by one. Two texts for one row give two lines on it. */
  function Located(env: Env, branch: string, input: seq<Line>): Option<seq<Line>> {
    if branch == "" then Rows(env, input) else
      match Relocated(env, branch, input)
      case None => None
      case Some(moved) =>
        (match Normalized(moved)
         case None => None
         case Some(again) => Rows(env, again))
  }

  /** The availability check looks at each line alone. */
  function ShortLines(b: Balances, tenant: string, lines: seq<Line>): seq<Shortage> {
    if lines == [] then [] else
      var line := lines[|lines| - 1];
      var free := Free(b, Row(tenant, line));
      ShortLines(b, tenant, lines[..|lines| - 1])
      + (if free < line.qty then [Shortage(Row(tenant, line), line.qty, if free > 0 then free else 0)] else [])
  }

  predicate NoWarehouse(lines: seq<Line>) {
    exists i :: 0 <= i < |lines| && |lines[i].key| == 2 && lines[i].key[0] == ""
  }

  /** What stops a request before the database is asked. */
  function Validated(req: Request): Option<Refusal> {
    var key := Trim(req.key);
    if key == "" || |key| > 128 then Some(MissingKey)
    else match Normalized(req.lines)
      case None => Some(InvalidQuantity)
      case Some(input) =>
        if req.branch == "" && (req.caller == "sales" || NoWarehouse(input)) then Some(BranchRequired) else None
  }

  function PayloadOf(req: Request): Payload
    requires Validated(req).None?
  {
    Payload(req.caller, req.refType, req.refId, req.branch, req.noExpiry, Normalized(req.lines).value)
  }

  function ExpiryOf(req: Request, now: int): Option<int> {
    if req.noExpiry then None else Some(now + req.ttlSeconds * 1000)
  }

  /** `id` is the new reservation's random id. */
  ghost function ReserveTx(db: Db, env: Env, tenant: string, req: Request, id: string, now: int): (Db, Outcome) {
    if Validated(req).Some? then (db, Refused(Validated(req).value)) else
      var key, payload := Trim(req.key), PayloadOf(req);
      if exists x :: x in db.reservations && SameKey(db.reservations[x], tenant, req.caller, key) then
        var x :| x in db.reservations && SameKey(db.reservations[x], tenant, req.caller, key);
        (db, if db.reservations[x].payload == payload then Replayed(x) else Refused(Conflict))
      else
        match Located(env, req.branch, payload.lines)
        case None => (db, Refused(NotAllowed))
        case Some(rows) =>
          var short := ShortLines(db.balances, tenant, rows);
          if short != [] then (db, Refused(Insufficient(short)))
          else if !Available(db.balances, tenant, rows) then (db, Crashed)
          else
            var v := Reservation(tenant, key, payload, Held, ExpiryOf(req, now), rows);
            (db.(balances := Shift(db.balances, tenant, rows, 1), reservations := db.reservations[id := v]), Created(id))
  }

  /** The lines of a reservation in row order, as commit, release and expiry read them. */
  function InRowOrder(lines: seq<Line>): seq<Line> {
    if lines == [] then [] else Place(InRowOrder(lines[..|lines| - 1]), lines[|lines| - 1])
  }

  function Place(out: seq<Line>, line: Line): seq<Line> {
    if out == [] || KeyLess(line.key, out[0].key) then [line] + out else [out[0]] + Place(out[1..], line)
  }

  function CommitTx(db: Db, tenant: string, id: string): (Db, Outcome) {
    if id !in db.reservations || db.reservations[id].tenant != tenant then (db, Refused(NotFound)) else
      var v := db.reservations[id];
      if v.state.Committed? then (db, Done)
      else if !v.state.Held? then (db, Refused(WrongState))
      else (Db(Deduct(db.balances, tenant, v.lines), db.reservations[id := v.(state := Committed)],
               db.sales + SalesOf(db.balances, id, tenant, InRowOrder(v.lines))), Done)
  }

  /** Gives a HELD reservation back. */
  function CloseTx(db: Db, id: string, state: State): Db
    requires id in db.reservations
  {
    var v := db.reservations[id];
    db.(balances := Shift(db.balances, v.tenant, v.lines, -1), reservations := db.reservations[id := v.(state := state)])
  }

  function ReleaseTx(db: Db, tenant: string, id: string): (Db, Outcome) {
    if id !in db.reservations || db.reservations[id].tenant != tenant then (db, Refused(NotFound)) else
      match db.reservations[id].state
      case Held => (CloseTx(db, id, Released), Done)
      case Committed => (db, Refused(WrongState))
      case _ => (db, Done)
  }

  predicate IsDue(db: Db, tenant: string, id: string, now: int) {
    && id in db.reservations && db.reservations[id].tenant == tenant && db.reservations[id].state.Held?
    && db.reservations[id].expiresAt.Some? && db.reservations[id].expiresAt.value < now
  }

  function ExpireTx(db: Db, tenant: string, id: string, now: int): Db {
    if IsDue(db, tenant, id, now) then CloseTx(db, id, Expired) else db
  }

  /** A receipt through the balance aggregate; refused when its money leaves the safe range. */
  function ReceiveTx(db: Db, r: Key, qty: nat, cost: nat): Db {
    if qty == 0 || cost > Arith.MAX_SAFE then db else
      var was := if r in db.balances then db.balances[r] else Balance(0, 0, 0, 0);
      var onHand, avg := was.onHand + qty, Costing.NewAverage(was.onHand, was.avg, qty, cost);
      if !Costing.MoneySafe(onHand, avg) then db
      else db.(balances := db.balances[r := Balance(onHand, was.reserved, avg, Costing.Valuation(onHand, avg))])
  }

  /** An issue or transfer that takes only what no reservation holds. */
  function IssueTx(db: Db, r: Key, qty: nat): Db {
    if qty == 0 || qty > Free(db.balances, r) || r !in db.balances || qty > db.balances[r].onHand then db else
      var b := db.balances[r];
      db.(balances := db.balances[r := b.(onHand := b.onHand - qty, valuation := Costing.Valuation(b.onHand - qty, b.avg))])
  }

  // ---- every transaction keeps the invariant

  lemma {:induction false} PlaceTotal(out: seq<Line>, line: Line, k: Key)
    ensures Total(Place(out, line), k) == Total(out, k) + (if line.key == k then line.qty else 0)
  {
    hide KeyLess;
    var s := Place(out, line);
    TotalCons(s, k);
    if out != [] && !KeyLess(line.key, out[0].key) {
      TotalCons(out, k);
      assert s[1..] == Place(out[1..], line);
      PlaceTotal(out[1..], line, k);
    } else {
      assert s[1..] == out;
    }
  }

  /** Reading the lines in another order asks for the same. */
  lemma {:induction false} InRowOrderTotal(lines: seq<Line>, k: Key)
    ensures Total(InRowOrder(lines), k) == Total(lines, k)
  {
    if lines != [] {
      InRowOrderTotal(lines[..|lines| - 1], k);
      PlaceTotal(InRowOrder(lines[..|lines| - 1]), lines[|lines| - 1], k);
    }
  }

  lemma {:induction false} InRowOrderIsPositive(lines: seq<Line>)
    requires Positive(lines)
    ensures Positive(InRowOrder(lines)) && |InRowOrder(lines)| == |lines|
  {
    if lines != [] {
      InRowOrderIsPositive(lines[..|lines| - 1]);
      PlaceIsPositive(InRowOrder(lines[..|lines| - 1]), lines[|lines| - 1]);
    }
  }

  lemma {:induction false} PlaceIsPositive(out: seq<Line>, line: Line)
    requires Positive(out) && line.qty > 0
    ensures Positive(Place(out, line)) && |Place(out, line)| == |out| + 1
  {
    if out != [] && !KeyLess(line.key, out[0].key) {
      PlaceIsPositive(out[1..], line);
    }
  }

  lemma AskedInRowOrder(tenant: string, lines: seq<Line>, r: Key)
    ensures Asked(tenant, InRowOrder(lines), r) == Asked(tenant, lines, r)
  {
    if r != [] {
      InRowOrderTotal(lines, r[1..]);
    }
  }

  /** Changing one reservation and the balances together. */
  lemma WriteKeepsReserved(db: Db, id: string, v: Reservation, b: Balances)
    requires ReservedOk(db.balances, db.reservations)
    requires forall r :: Reserved(b, r) == Reserved(db.balances, r) + Reserving(v, r)
                                           - (if id in db.reservations then Reserving(db.reservations[id], r) else 0)
    ensures ReservedOk(b, db.reservations[id := v])
  {
    forall r
      ensures HeldOf(db.reservations[id := v], r) == Reserved(b, r)
    {
      HeldAfterWrite(db.reservations, id, v, r);
      assert HeldOf(db.reservations, r) == Reserved(db.balances, r);
    }
  }

  /** A reservation is created only on lines that fit together, under a fresh random id. */
  lemma ReserveKeepsInv(db: Db, env: Env, tenant: string, req: Request, id: string, now: int)
    requires Inv(db) && id !in db.reservations && forall r :: Sold(db.sales, id, r) == 0
    ensures Inv(ReserveTx(db, env, tenant, req, id, now).0)
  {
    hide Normalized, Located, ShortLines, Trim, Sold, Asked, Inv, Shift, Available, ExpiryOf, NoWarehouse;
    var (db', outcome) := ReserveTx(db, env, tenant, req, id, now);
    if outcome.Created? {
      LocatedIsPositive(env, req.branch, req.lines);
      HoldKeepsInv(db, id, db'.reservations[id]);
    }
  }

  /** A new hold on available rows, under a key not used before. */
  lemma HoldKeepsInv(db: Db, id: string, v: Reservation)
    requires Inv(db) && id !in db.reservations && forall r :: Sold(db.sales, id, r) == 0
    requires v.state.Held? && Positive(v.lines) && Available(db.balances, v.tenant, v.lines)
    requires forall x :: x in db.reservations ==> !SameKey(db.reservations[x], v.tenant, v.payload.caller, v.key)
    ensures Inv(db.(balances := Shift(db.balances, v.tenant, v.lines, 1), reservations := db.reservations[id := v]))
  {
    hide Sold, Asked, Shift, BalancesOk, KeysOk, SalesOk, Positive, Available;
    var db' := db.(balances := Shift(db.balances, v.tenant, v.lines, 1), reservations := db.reservations[id := v]);
    ShiftKeepsBalances(db.balances, v);
    WriteKeepsReserved(db, id, v, db'.balances);
    NewKeyIsAlone(db.reservations, id, v);
    HoldSellsNothing(db, id, v);
  }

  lemma ShiftKeepsBalances(b: Balances, v: Reservation)
    requires BalancesOk(b) && Positive(v.lines) && Available(b, v.tenant, v.lines)
    ensures var b' := Shift(b, v.tenant, v.lines, 1);
            BalancesOk(b') && forall r :: Reserved(b', r) == Reserved(b, r) + Asked(v.tenant, v.lines, r)
  {
    hide Asked, Costing.MoneySafe, Costing.Valuation;
    var b' := Shift(b, v.tenant, v.lines, 1);
    forall r
      ensures Reserved(b', r) == Reserved(b, r) + Asked(v.tenant, v.lines, r)
      ensures r in b' ==> BalanceOk(b'[r])
    {
      AskedIsNonNegative(v.tenant, v.lines, r);
      assert Asked(v.tenant, v.lines, r) <= Free(b, r);
    }
  }

  lemma NewKeyIsAlone(vs: Reservations, id: string, v: Reservation)
    requires KeysOk(vs) && forall x :: x in vs ==> !SameKey(vs[x], v.tenant, v.payload.caller, v.key)
    ensures KeysOk(vs[id := v])
  {
  }

  lemma HoldSellsNothing(db: Db, id: string, v: Reservation)
    requires SalesOk(db.sales, db.reservations) && v.state.Held? && forall r :: Sold(db.sales, id, r) == 0
    ensures SalesOk(db.sales, db.reservations[id := v])
  {
    hide Sold, Asked;
    forall x, r
      ensures Sold(db.sales, x, r) == Due(db.reservations[id := v], x, r)
    {
      assert Sold(db.sales, x, r) == Due(db.reservations, x, r);
    }
  }

  lemma NothingHeld(vs: Reservations, r: Key)
    ensures vs.Keys == {} ==> HeldOf(vs, r) == 0
  {
    var m := map id | id in vs :: Reserving(vs[id], r);
    assert m.Keys == vs.Keys;
    Sums.OfNone(m);
  }

  lemma LocatedIsPositive(env: Env, branch: string, lines: seq<TextLine>)
    requires Normalized(lines).Some? && Located(env, branch, Normalized(lines).value).Some?
    ensures Positive(Located(env, branch, Normalized(lines).value).value)
  {
    hide Parsed, Canonical;
    var input := Normalized(lines).value;
    NormalizedKeys(lines);
    if branch != "" {
      NormalizedKeys(Relocated(env, branch, input).value);
    }
  }

  lemma CommitKeepsInv(db: Db, tenant: string, id: string)
    requires Inv(db)
    ensures Inv(CommitTx(db, tenant, id).0)
  {
    hide Deduct, InRowOrder, SalesOf, BalancesOk, Sold, Asked, Covered;
    if id in db.reservations && db.reservations[id].tenant == tenant && db.reservations[id].state.Held? {
      var v := db.reservations[id];
      var db' := CommitTx(db, tenant, id).0;
      HeldIsCovered(db, id);
      DeductIsExact(db.balances, tenant, v.lines);
      WriteKeepsReserved(db, id, v.(state := Committed), db'.balances);
      var sold := SalesOf(db.balances, id, tenant, InRowOrder(v.lines));
      forall x, r
        ensures Sold(db'.sales, x, r) == Due(db'.reservations, x, r)
      {
        SoldAppend(db.sales, sold, x, r);
        SoldOfCommit(db.balances, id, tenant, InRowOrder(v.lines), x, r);
        AskedInRowOrder(tenant, v.lines, r);
        assert Sold(db.sales, x, r) == Due(db.reservations, x, r);
      }
    }
  }

  /** Deducting covered lines takes exactly what they ask and leaves sound balances. */
  lemma DeductIsExact(b: Balances, tenant: string, lines: seq<Line>)
    requires BalancesOk(b) && Positive(lines) && Covered(b, tenant, lines)
    ensures BalancesOk(Deduct(b, tenant, lines))
    ensures forall r :: Reserved(Deduct(b, tenant, lines), r) == Reserved(b, r) - Asked(tenant, lines, r)
    ensures forall r :: OnHand(Deduct(b, tenant, lines), r) == OnHand(b, r) - Asked(tenant, lines, r)
  {
    hide Costing.MoneySafe, Costing.Valuation;
    var b' := Deduct(b, tenant, lines);
    forall r
      ensures Reserved(b', r) == Reserved(b, r) - Asked(tenant, lines, r)
      ensures OnHand(b', r) == OnHand(b, r) - Asked(tenant, lines, r)
      ensures r in b' ==> BalanceOk(b'[r])
    {
      var q := Asked(tenant, lines, r);
      AskedIsNonNegative(tenant, lines, r);
      assert q <= Reserved(b, r);
      if r in b && q > 0 {
        Costing.DeductionStaysSafe(b[r].onHand, b[r].avg, q);
      }
    }
  }

  lemma CloseKeepsInv(db: Db, id: string, state: State)
    requires Inv(db) && id in db.reservations && db.reservations[id].state.Held? && (state.Released? || state.Expired?)
    ensures Inv(CloseTx(db, id, state))
  {
    var v := db.reservations[id];
    var db' := CloseTx(db, id, state);
    HeldIsCovered(db, id);
    forall r
      ensures Reserved(db'.balances, r) == Reserved(db.balances, r) - Asked(v.tenant, v.lines, r)
      ensures r in db'.balances ==> BalanceOk(db'.balances[r])
    {
      AskedIsNonNegative(v.tenant, v.lines, r);
      assert Asked(v.tenant, v.lines, r) <= Reserved(db.balances, r);
    }
    WriteKeepsReserved(db, id, v.(state := state), db'.balances);
    forall x, r
      ensures Sold(db'.sales, x, r) == Due(db'.reservations, x, r)
    {
      assert Sold(db.sales, x, r) == Due(db.reservations, x, r);
    }
  }

  lemma StockMovesKeepInv(db: Db, r: Key, qty: nat, cost: nat)
    requires Inv(db)
    ensures Inv(ReceiveTx(db, r, qty, cost)) && Inv(IssueTx(db, r, qty))
  {
    hide Costing.MoneySafe, Costing.Valuation, Costing.NewAverage, HeldOf, KeysOk, SalesOk, LinesOk;
    if r in db.balances && 0 < qty <= db.balances[r].onHand {
      Costing.DeductionStaysSafe(db.balances[r].onHand, db.balances[r].avg, qty);
    }
    var a, b := ReceiveTx(db, r, qty, cost), IssueTx(db, r, qty);
    assert forall x :: Reserved(a.balances, x) == Reserved(db.balances, x);
    assert forall x :: Reserved(b.balances, x) == Reserved(db.balances, x);
  }

  // ---- whole runs

  datatype Op =
    | DoReserve(tenant: string, env: Env, req: Request, id: string, now: int)
    | DoCommit(tenant: string, id: string)
    | DoRelease(tenant: string, id: string)
    | DoExpire(tenant: string, id: string, now: int)
    | DoReceive(row: Key, qty: nat, cost: nat)
    | DoIssue(row: Key, qty: nat)

  ghost function Step(db: Db, op: Op): Db {
    match op
    case DoReserve(tenant, env, req, id, now) => ReserveTx(db, env, tenant, req, id, now).0
    case DoCommit(tenant, id) => CommitTx(db, tenant, id).0
    case DoRelease(tenant, id) => ReleaseTx(db, tenant, id).0
    case DoExpire(tenant, id, now) => ExpireTx(db, tenant, id, now)
    case DoReceive(r, qty, cost) => ReceiveTx(db, r, qty, cost)
    case DoIssue(r, qty) => IssueTx(db, r, qty)
  }

  ghost function Run(db: Db, ops: seq<Op>): Db {
    if ops == [] then db else Step(Run(db, ops[..|ops| - 1]), ops[|ops| - 1])
  }

  /** The ids of new reservations are random UUIDs: no two requests of a run draw the same one. */
  ghost predicate FreshIds(ops: seq<Op>) {
    forall i, j :: 0 <= i < j < |ops| && ops[i].DoReserve? && ops[j].DoReserve? ==> ops[i].id != ops[j].id
  }

  lemma {:induction false} OnlyDrawnIds(ops: seq<Op>, id: string)
    requires id in Run(EMPTY, ops).reservations
    ensures exists i :: 0 <= i < |ops| && ops[i].DoReserve? && ops[i].id == id
  {
    hide Normalized, Located, ShortLines, Trim;
    if ops != [] {
      var front := ops[..|ops| - 1];
      if id in Run(EMPTY, front).reservations {
        OnlyDrawnIds(front, id);
        var i :| 0 <= i < |front| && front[i].DoReserve? && front[i].id == id;
        assert ops[i].DoReserve? && ops[i].id == id;
      } else {
        assert ops[|ops| - 1].DoReserve? && ops[|ops| - 1].id == id;
      }
    }
  }

  /** After any run from an empty store: `reserved` of each row is the sum of its lines in HELD
      reservations, between zero and on hand; the valuation is on hand times average; each key made
      at most one reservation; and the ledger deducts each committed reservation exactly once. */
  lemma {:induction false} EveryRunBalances(ops: seq<Op>)
    requires FreshIds(ops)
    ensures Inv(Run(EMPTY, ops))
  {
    if ops == [] {
      forall r
        ensures HeldOf(EMPTY.reservations, r) == 0
      {
        NothingHeld(EMPTY.reservations, r);
      }
    } else {
      var front, op := ops[..|ops| - 1], ops[|ops| - 1];
      EveryRunBalances(front);
      StepKeepsInv(front, op, ops);
    }
  }

  lemma DrawnIdIsNew(front: seq<Op>, op: Op, ops: seq<Op>)
    requires ops == front + [op] && FreshIds(ops) && op.DoReserve?
    ensures op.id !in Run(EMPTY, front).reservations
  {
    hide Run;
    assert forall i :: 0 <= i < |front| ==> ops[i] == front[i];
    assert ops[|front|] == op;
    if op.id in Run(EMPTY, front).reservations {
      OnlyDrawnIds(front, op.id);
    }
  }

  lemma StepKeepsInv(front: seq<Op>, op: Op, ops: seq<Op>)
    requires ops == front + [op] && FreshIds(ops) && Inv(Run(EMPTY, front))
    ensures Inv(Step(Run(EMPTY, front), op))
  {
    hide Run, ReserveTx, CommitTx, CloseTx, ReceiveTx, IssueTx;
    var db := Run(EMPTY, front);
    match op
    case DoReserve(tenant, env, req, id, now) =>
      DrawnIdIsNew(front, op, ops);
      forall r
        ensures Sold(db.sales, id, r) == 0
      {
        assert Sold(db.sales, id, r) == Due(db.reservations, id, r);
      }
      ReserveKeepsInv(db, env, tenant, req, id, now);
    case DoCommit(tenant, id) => CommitKeepsInv(db, tenant, id);
    case DoRelease(tenant, id) =>
      if id in db.reservations && db.reservations[id].state.Held? {
        CloseKeepsInv(db, id, Released);
      }
    case DoExpire(tenant, id, now) =>
      if IsDue(db, tenant, id, now) {
        CloseKeepsInv(db, id, Expired);
      }
    case DoReceive(r, qty, cost) => StockMovesKeepInv(db, r, qty, cost);
    case DoIssue(r, qty) => StockMovesKeepInv(db, r, qty, 0);
  }

  // ---- what callers get

  /** Every HELD reservation can be committed or released in full: on hand and reserved fall by exactly
      its lines, or reserved alone does, in every row. */
  lemma HeldClosesInFull(db: Db, id: string)
    requires Inv(db) && id in db.reservations && db.reservations[id].state.Held?
    ensures var v := db.reservations[id];
            var (committed, c) := CommitTx(db, v.tenant, id);
            var (released, d) := ReleaseTx(db, v.tenant, id);
            && c == Done && d == Done
            && forall r :: OnHand(committed.balances, r) == OnHand(db.balances, r) - Asked(v.tenant, v.lines, r)
                           && Reserved(committed.balances, r) == Reserved(db.balances, r) - Asked(v.tenant, v.lines, r)
                           && OnHand(released.balances, r) == OnHand(db.balances, r)
                           && Reserved(released.balances, r) == Reserved(db.balances, r) - Asked(v.tenant, v.lines, r)
  {
    hide Asked, Deduct, SalesOf, BalancesOk;
    var v := db.reservations[id];
    HeldIsCovered(db, id);
    DeductIsExact(db.balances, v.tenant, v.lines);
    forall r
      ensures Reserved(Shift(db.balances, v.tenant, v.lines, -1), r) == Reserved(db.balances, r) - Asked(v.tenant, v.lines, r)
    {
      AskedIsNonNegative(v.tenant, v.lines, r);
      assert Asked(v.tenant, v.lines, r) <= Reserved(db.balances, r);
    }
  }

  /** Do two lines fall on one row? */
  predicate Aliased(lines: seq<Line>) {
    exists i, j :: 0 <= i < j < |lines| && lines[i].key == lines[j].key
  }

  /** With one line per row, checking each line alone is enough. */
  lemma CheckedAloneIsEnough(b: Balances, tenant: string, lines: seq<Line>)
    requires BalancesOk(b) && !Aliased(lines) && ShortLines(b, tenant, lines) == []
    ensures Available(b, tenant, lines)
  {
    forall r
      ensures Asked(tenant, lines, r) <= Free(b, r)
    {
      if r != [] && r[0] == tenant && r[1..] in Keys(lines) {
        var i :| 0 <= i < |lines| && lines[i].key == r[1..];
        TotalOfDistinct(lines, i);
        NotShort(b, tenant, lines, i);
        assert r == Row(tenant, lines[i]);
      } else if r != [] && r[1..] !in Keys(lines) {
        TotalElsewhere(lines, r[1..]);
      }
    }
  }

  lemma {:induction false} TotalOfDistinct(lines: seq<Line>, i: nat)
    requires i < |lines| && !Aliased(lines)
    ensures Total(lines, lines[i].key) == lines[i].qty
  {
    var n := |lines| - 1;
    var front := lines[..n];
    assert !Aliased(front);
    if i < n {
      TotalOfDistinct(front, i);
    } else {
      assert lines[n].key !in Keys(front);
      TotalElsewhere(front, lines[n].key);
    }
  }

  lemma {:induction false} NotShort(b: Balances, tenant: string, lines: seq<Line>, i: nat)
    requires i < |lines| && ShortLines(b, tenant, lines) == []
    ensures lines[i].qty <= Free(b, Row(tenant, lines[i]))
  {
    if i < |lines| - 1 {
      NotShort(b, tenant, lines[..|lines| - 1], i);
    }
  }

  /** Every line fits by itself. */
  predicate EachFits(b: Balances, tenant: string, lines: seq<Line>) {
    forall i :: 0 <= i < |lines| ==> lines[i].qty <= Free(b, Row(tenant, lines[i]))
  }

  lemma {:induction false} NoShortageMeansEachFits(b: Balances, tenant: string, lines: seq<Line>)
    ensures ShortLines(b, tenant, lines) == [] <==> EachFits(b, tenant, lines)
  {
    if lines != [] {
      var n := |lines| - 1;
      NoShortageMeansEachFits(b, tenant, lines[..n]);
      assert EachFits(b, tenant, lines) <==> EachFits(b, tenant, lines[..n]) && lines[n].qty <= Free(b, Row(tenant, lines[n])) by {
        assert forall i :: 0 <= i < n ==> lines[..n][i] == lines[i];
      }
    }
  }

  /** A located request under a new key is held exactly when its lines fit together; when they do not,
      the shortage is reported unless two lines name one row and each fits alone, and then the second
      guarded update finds no row and the request fails. */
  lemma ReserveOutcome(db: Db, env: Env, tenant: string, req: Request, id: string, now: int)
    requires Inv(db)
    requires forall x :: x in db.reservations ==> !SameKey(db.reservations[x], tenant, req.caller, Trim(req.key))
    ensures Validated(req).None? && Located(env, req.branch, PayloadOf(req).lines).Some? ==>
              var rows := Located(env, req.branch, PayloadOf(req).lines).value;
              var (db', outcome) := ReserveTx(db, env, tenant, req, id, now);
              && (outcome.Created? <==> Available(db.balances, tenant, rows))
              && (outcome.Crashed? <==> !Available(db.balances, tenant, rows) && EachFits(db.balances, tenant, rows))
              && (outcome.Crashed? ==> Aliased(rows))
              && (outcome.Created? || outcome.Crashed? || (outcome.Refused? && outcome.why.Insufficient?))
              && (!outcome.Created? ==> db' == db)
              && (outcome.Created? ==> forall r :: Reserved(db'.balances, r) == Reserved(db.balances, r) + Asked(tenant, rows, r)
                                                   && OnHand(db'.balances, r) == OnHand(db.balances, r))
  {
    hide Normalized, Located, Trim, Asked, BalancesOk;
    if Validated(req).None? && Located(env, req.branch, PayloadOf(req).lines).Some? {
      var rows := Located(env, req.branch, PayloadOf(req).lines).value;
      LocatedIsPositive(env, req.branch, req.lines);
      NoShortageMeansEachFits(db.balances, tenant, rows);
      if ShortLines(db.balances, tenant, rows) == [] {
        if !Aliased(rows) {
          CheckedAloneIsEnough(db.balances, tenant, rows);
        }
      } else if Available(db.balances, tenant, rows) {
        AvailableIsNotShort(db.balances, tenant, rows);
      }
      forall r
        ensures Available(db.balances, tenant, rows) && r !in db.balances ==> Asked(tenant, rows, r) == 0
      {
        AskedIsNonNegative(tenant, rows, r);
      }
    }
  }

  lemma {:induction false} AvailableIsNotShort(b: Balances, tenant: string, lines: seq<Line>)
    requires Positive(lines) && Available(b, tenant, lines)
    ensures ShortLines(b, tenant, lines) == []
  {
    if lines != [] {
      var n := |lines| - 1;
      var front := lines[..n];
      forall r
        ensures Asked(tenant, front, r) <= Free(b, r)
      {
        AskedPrefix(tenant, lines, n, r);
        assert Asked(tenant, lines, r) <= Free(b, r);
      }
      AvailableIsNotShort(b, tenant, front);
      var r := Row(tenant, lines[n]);
      AskedStep(tenant, lines, n, r);
      assert lines[..n + 1] == lines;
      AskedIsNonNegative(tenant, front, r);
      assert Asked(tenant, lines, r) <= Free(b, r);
    }
  }

  /** One SKU in two spellings, three pieces each, four free. */
  function TwiceThree(w: string, upper: string, lower: string): Request {
    Request("k", "inventory", "ORDER", "o", "", false, 900,
            [TextLine(w, upper, FormatMilli(3000)), TextLine(w, lower, FormatMilli(3000))])
  }

  /** That failure is real, for every warehouse and every two spellings of a SKU's id. */
  lemma TwoSpellingsCrash(w: string, upper: string, lower: string)
    requires w != "" && ':' !in w && Lex.Less(upper, lower)
    ensures var env := Env((b, x) => None, (x, s) => Some([w, lower]));
            var db := Db(map[["t", w, lower] := Balance(4000, 0, 0, 0)], map[], []);
            ReserveTx(db, env, "t", TwiceThree(w, upper, lower), "id", 0) == (db, Crashed)
  {
    hide FormatMilli, ParseMilli, Normalized;
    var env := Env((b, x) => None, (x, s) => Some([w, lower]));
    var req := TwiceThree(w, upper, lower);
    var db := Db(map[["t", w, lower] := Balance(4000, 0, 0, 0)], map[], []);
    var input := [Line([w, upper], 3000), Line([w, lower], 3000)];
    TwoSpellings(w, upper, lower);
    assert req.lines == ToText(input);
    assert Trim("k") == "k";
    assert Validated(req) == None && PayloadOf(req).lines == input;
    var rows := [Line([w, lower], 3000), Line([w, lower], 3000)];
    RowsOfTwo(env, input[0], input[1]);
    assert input == [input[0], input[1]];
    assert Located(env, "", input) == Some(rows);
    FitOnlyAlone(db.balances, w, lower);
  }

  const UPPER := "A0000000-0000-4000-8000-000000000000"
  const LOWER := "a0000000-0000-4000-8000-000000000000"

  /** For one, a UUID in two letter cases. */
  lemma AliasedRequestCrashes()
    ensures var env := Env((b, x) => None, (x, s) => Some([LOWER, LOWER]));
            var db := Db(map[["t", LOWER, LOWER] := Balance(4000, 0, 0, 0)], map[], []);
            ReserveTx(db, env, "t", TwiceThree(LOWER, UPPER, LOWER), "id", 0) == (db, Crashed)
  {
    hide ReserveTx;
    assert Lex.Less(UPPER, LOWER);
    TwoSpellingsCrash(LOWER, UPPER, LOWER);
  }

  lemma RowsOfTwo(env: Env, a: Line, b: Line)
    requires |a.key| == |b.key| == 2
    requires env.rowOf(a.key[0], a.key[1]).Some? && env.rowOf(b.key[0], b.key[1]).Some?
    ensures Rows(env, [a, b])
            == Some([Line(env.rowOf(a.key[0], a.key[1]).value, a.qty), Line(env.rowOf(b.key[0], b.key[1]).value, b.qty)])
  {
    var two := [a, b];
    assert two[..1] == [a] && [a][..0] == [];
    var x, y := Line(env.rowOf(a.key[0], a.key[1]).value, a.qty), Line(env.rowOf(b.key[0], b.key[1]).value, b.qty);
    assert Rows(env, []) == Some([]);
    assert Rows(env, [a]) == Some([x]) by {
      assert [] + [x] == [x];
    }
    assert Rows(env, two) == Some([x] + [y]);
    assert [x] + [y] == [x, y];
  }

  lemma TwoSpellings(w: string, upper: string, lower: string)
    requires ':' !in w && Lex.Less(upper, lower)
    ensures var input := [Line([w, upper], 3000), Line([w, lower], 3000)];
            Pairs(input) && Normalized(ToText(input)) == Some(input)
  {
    hide Normalized, MergeKey, Lex.Less;
    var input := [Line([w, upper], 3000), Line([w, lower], 3000)];
    Lex.Irreflexive(upper);
    Lex.Irreflexive(w);
    assert Sorted(input) by {
      assert [w, upper][1..] == [upper] && [w, lower][1..] == [lower];
      assert KeyLess([upper], [lower]);
    }
    assert !Collide(input) by {
      assert [w, upper][1] != [w, lower][1];
      PlainPairsDiffer([w, upper], [w, lower]);
    }
    NormalizedOfText(input);
  }

  lemma FitOnlyAlone(b: Balances, w: string, s: string)
    requires b == map[["t", w, s] := Balance(4000, 0, 0, 0)]
    ensures var rows := [Line([w, s], 3000), Line([w, s], 3000)];
            ShortLines(b, "t", rows) == [] && !Available(b, "t", rows)
  {
    var rows := [Line([w, s], 3000), Line([w, s], 3000)];
    var r := ["t", w, s];
    assert r[1..] == [w, s] && Row("t", rows[0]) == r;
    assert rows[..1] == [rows[0]] && rows[..1][..0] == [];
    assert Total(rows[..1], [w, s]) == 3000;
    assert Asked("t", rows, r) == 6000 && Free(b, r) == 4000;
    assert ShortLines(b, "t", rows[..1]) == [];
  }

  /** Once a key made a reservation, the same request gets it back and any other request under the key
      is a conflict; neither changes anything. */
  lemma SpentKeyAnswers(db: Db, env: Env, tenant: string, req: Request, id: string, now: int, made: string)
    requires Inv(db) && Validated(req).None?
    requires made in db.reservations && SameKey(db.reservations[made], tenant, req.caller, Trim(req.key))
    ensures ReserveTx(db, env, tenant, req, id, now)
            == (db, if db.reservations[made].payload == PayloadOf(req) then Replayed(made) else Refused(Conflict))
  {
    hide Trim, Normalized, Located, ShortLines;
  }

  /** And a reservation once made stays, under its key and with its request, through any further run. */
  lemma {:induction false} ReservationsStay(ops: seq<Op>, more: seq<Op>, id: string)
    requires FreshIds(ops + more) && id in Run(EMPTY, ops).reservations
    ensures var v, w := Run(EMPTY, ops).reservations[id], Run(EMPTY, ops + more).reservations;
            id in w && w[id].tenant == v.tenant && w[id].key == v.key && w[id].payload == v.payload && w[id].lines == v.lines
  {
    hide Step, FreshIds;
    if more == [] {
      assert ops + more == ops;
    } else {
      var front, op := more[..|more| - 1], more[|more| - 1];
      assert (ops + more)[..|ops + more| - 1] == ops + front;
      assert ops + more == ops + front + [op];
      FreshPrefix(ops + front, op);
      ReservationsStay(ops, front, id);
      if op.DoReserve? {
        DrawnIdIsNew(ops + front, op, ops + more);
      }
      StepKeepsReservation(Run(EMPTY, ops + front), op, id);
    }
  }

  lemma FreshPrefix(front: seq<Op>, op: Op)
    requires FreshIds(front + [op])
    ensures FreshIds(front)
  {
    assert forall i :: 0 <= i < |front| ==> (front + [op])[i] == front[i];
  }

  lemma StepKeepsReservation(db: Db, op: Op, id: string)
    requires id in db.reservations && (op.DoReserve? ==> op.id !in db.reservations)
    ensures var v, w := db.reservations[id], Step(db, op).reservations;
            id in w && w[id].tenant == v.tenant && w[id].key == v.key && w[id].payload == v.payload && w[id].lines == v.lines
  {
    hide Trim, Normalized, Located, ShortLines, Shift, Deduct, SalesOf, InRowOrder, Available;
  }

  // ---- the loops inside the transactions

  method RelocateLines(env: Env, branch: string, lines: seq<Line>) returns (moved: Option<seq<TextLine>>)
    requires forall i :: 0 <= i < |lines| ==> |lines[i].key| == 2
    ensures moved == Relocated(env, branch, lines)
  {
    hide FormatMilli;
    var out: seq<TextLine> := [];
    for n := 0 to |lines|
      invariant Relocated(env, branch, lines[..n]) == Some(out)
    {
      assert lines[..n + 1][..n] == lines[..n];
      var w := env.warehouseOf(branch, lines[n].key[0]);
      if w.None? {
        OneRefusalIsEnough(env, branch, lines, n);
        return None;
      }
      out := out + [TextLine(w.value, lines[n].key[1], FormatMilli(lines[n].qty))];
    }
    assert lines[..|lines|] == lines;
    return Some(out);
  }

  lemma {:induction false} OneRefusalIsEnough(env: Env, branch: string, lines: seq<Line>, n: nat)
    requires n < |lines| && |lines[n].key| == 2
    ensures env.warehouseOf(branch, lines[n].key[0]).None? ==> Relocated(env, branch, lines).None?
    ensures env.rowOf(lines[n].key[0], lines[n].key[1]).None? ==> Rows(env, lines).None?
  {
    if n < |lines| - 1 {
      OneRefusalIsEnough(env, branch, lines[..|lines| - 1], n);
    }
  }

  method RowLines(env: Env, lines: seq<Line>) returns (rows: Option<seq<Line>>)
    requires forall i :: 0 <= i < |lines| ==> |lines[i].key| == 2
    ensures rows == Rows(env, lines)
  {
    var out: seq<Line> := [];
    for n := 0 to |lines|
      invariant Rows(env, lines[..n]) == Some(out)
    {
      assert lines[..n + 1][..n] == lines[..n];
      var r := env.rowOf(lines[n].key[0], lines[n].key[1]);
      if r.None? {
        OneRefusalIsEnough(env, "", lines, n);
        return None;
      }
      out := out + [Line(r.value, lines[n].qty)];
    }
    assert lines[..|lines|] == lines;
    return Some(out);
  }

  method CheckLines(b: Balances, tenant: string, rows: seq<Line>) returns (short: seq<Shortage>)
    ensures short == ShortLines(b, tenant, rows)
  {
    short := [];
    for n := 0 to |rows|
      invariant short == ShortLines(b, tenant, rows[..n])
    {
      assert rows[..n + 1][..n] == rows[..n];
      var r := [tenant] + rows[n].key;
      var free := if r in b then b[r].onHand - b[r].reserved else 0;
      if free < rows[n].qty {
        short := short + [Shortage(r, rows[n].qty, if free > 0 then free else 0)];
      }
    }
    assert rows[..|rows|] == rows;
  }

  lemma ShiftStep(b: Balances, tenant: string, lines: seq<Line>, n: nat, sign: int)
    requires n < |lines| && Row(tenant, lines[n]) in b
    ensures var before, r := Shift(b, tenant, lines[..n], sign), Row(tenant, lines[n]);
            Shift(b, tenant, lines[..n + 1], sign)
            == before[r := before[r].(reserved := before[r].reserved + sign * lines[n].qty)]
  {
    hide Asked;
    var before, r := Shift(b, tenant, lines[..n], sign), Row(tenant, lines[n]);
    var after := before[r := before[r].(reserved := before[r].reserved + sign * lines[n].qty)];
    forall x | x in b
      ensures Shift(b, tenant, lines[..n + 1], sign)[x] == after[x]
    {
      AskedStep(tenant, lines, n, x);
      var was, q := Asked(tenant, lines[..n], x), lines[n].qty;
      assert sign * (was + q) == sign * was + sign * q;
    }
  }

  /** One guarded update per line; it fails where the guard finds no row. */
  method HoldRows(b: Balances, tenant: string, rows: seq<Line>) returns (ok: bool, w: Balances)
    requires BalancesOk(b) && Positive(rows)
    ensures ok <==> Available(b, tenant, rows)
    ensures ok ==> w == Shift(b, tenant, rows, 1)
  {
    hide Asked, Row, BalanceOk;
    w := b;
    ShiftOfNothing(b, tenant, 1);
    FreeIsNonNegative(b);
    assert rows[..0] == [];
    for n := 0 to |rows|
      invariant w == Shift(b, tenant, rows[..n], 1) && Available(b, tenant, rows[..n])
    {
      var r, q := Row(tenant, rows[n]), rows[n].qty;
      AskedStep(tenant, rows, n, r);
      if r !in w || w[r].onHand - w[r].reserved < q {
        AskedPrefix(tenant, rows, n + 1, r);
        AskedIsNonNegative(tenant, rows[..n], r);
        assert Asked(tenant, rows, r) > Free(b, r);
        ok := false;
        return;
      }
      ShiftStep(b, tenant, rows, n, 1);
      forall x
        ensures Asked(tenant, rows[..n + 1], x) <= Free(b, x)
      {
        AskedStep(tenant, rows, n, x);
        assert Asked(tenant, rows[..n], x) <= Free(b, x);
      }
      w := w[r := w[r].(reserved := w[r].reserved + q)];
    }
    assert rows[..|rows|] == rows;
    ok := true;
  }

  lemma ShiftOfNothing(b: Balances, tenant: string, sign: int)
    ensures Shift(b, tenant, [], sign) == b && Available(b, tenant, []) == forall r :: 0 <= Free(b, r)
  {
    forall r
      ensures Asked(tenant, [], r) == 0
    {
    }
  }

  lemma FreeIsNonNegative(b: Balances)
    requires BalancesOk(b)
    ensures forall r :: 0 <= Free(b, r)
  {
  }

  /** The release updates are guarded and not checked; for covered lines none of them misses. */
  method GiveBackRows(b: Balances, tenant: string, lines: seq<Line>) returns (w: Balances)
    requires Positive(lines) && Covered(b, tenant, lines)
    ensures w == Shift(b, tenant, lines, -1)
  {
    hide Asked, Row;
    w := b;
    ShiftOfNothing(b, tenant, -1);
    assert lines[..0] == [];
    for n := 0 to |lines|
      invariant w == Shift(b, tenant, lines[..n], -1)
    {
      var r, q := Row(tenant, lines[n]), lines[n].qty;
      RowIsCovered(b, tenant, lines, n);
      ShiftStep(b, tenant, lines, n, -1);
      if r in w && w[r].reserved >= q {
        w := w[r := w[r].(reserved := w[r].reserved - q)];
      }
    }
    assert lines[..|lines|] == lines;
  }

  /** Before line `n`, its row still has at least the line's quantity reserved. */
  lemma RowIsCovered(b: Balances, tenant: string, lines: seq<Line>, n: nat)
    requires Positive(lines) && Covered(b, tenant, lines) && n < |lines|
    ensures var r := Row(tenant, lines[n]);
            r in b && 0 <= Asked(tenant, lines[..n], r) && Asked(tenant, lines[..n], r) + lines[n].qty <= b[r].reserved
  {
    hide Asked, Row;
    var r := Row(tenant, lines[n]);
    AskedStep(tenant, lines, n, r);
    AskedPrefix(tenant, lines, n + 1, r);
    AskedIsNonNegative(tenant, lines[..n], r);
    assert Asked(tenant, lines, r) <= Reserved(b, r);
  }

  lemma DeductStep(b: Balances, tenant: string, lines: seq<Line>, n: nat)
    requires BalancesOk(b) && Positive(lines) && Covered(b, tenant, lines) && n < |lines|
    ensures var before, r, q := Deduct(b, tenant, lines[..n]), Row(tenant, lines[n]), lines[n].qty;
            && r in b && r in before && q <= before[r].onHand && q <= before[r].reserved && BalanceOk(before[r])
            && before[r].onHand == b[r].onHand - Asked(tenant, lines[..n], r)
            && Deduct(b, tenant, lines[..n + 1])
               == before[r := Balance(before[r].onHand - q, before[r].reserved - q, before[r].avg,
                                      Costing.Valuation(before[r].onHand - q, before[r].avg))]
  {
    hide Asked, Row, Costing.Valuation, Costing.MoneySafe;
    var r, q := Row(tenant, lines[n]), lines[n].qty;
    var before := Deduct(b, tenant, lines[..n]);
    RowIsCovered(b, tenant, lines, n);
    var a := Asked(tenant, lines[..n], r);
    Costing.DeductionStaysSafe(b[r].onHand, b[r].avg, a);
    forall x | x in b
      ensures x != r ==> Deduct(b, tenant, lines[..n + 1])[x] == before[x]
      ensures x == r ==> Asked(tenant, lines[..n + 1], x) == a + q
    {
      AskedStep(tenant, lines, n, x);
    }
  }

  /** Deducts covered lines; the valuation goes through text and numbers and never fails. */
  method DeductRows(b: Balances, tenant: string, id: string, lines: seq<Line>) returns (w: Balances, sold: seq<Sale>)
    requires BalancesOk(b) && Positive(lines) && Covered(b, tenant, lines)
    ensures w == Deduct(b, tenant, lines) && sold == SalesOf(b, id, tenant, lines)
  {
    hide Deduct, Costing.MoneySafe, Costing.Valuation, Costing.AfterDeduction, FormatMilli, ParseMilli;
    w, sold := b, [];
    DeductNothing(b, tenant);
    assert lines[..0] == [];
    for n := 0 to |lines|
      invariant w == Deduct(b, tenant, lines[..n]) && sold == SalesOf(b, id, tenant, lines)[..n]
    {
      var r, q := Row(tenant, lines[n]), lines[n].qty;
      DeductStep(b, tenant, lines, n);
      AskedOfRow(tenant, lines[..n], lines[n]);
      Costing.DeductionSucceeds(w[r].onHand, w[r].avg, q);
      var costed := Costing.AfterDeduction(FormatMilli(w[r].onHand), w[r].avg, FormatMilli(q));
      ghost var all := SalesOf(b, id, tenant, lines);
      assert all[n] == Sale(id, r, w[r].onHand, -q);
      assert all[..n + 1] == all[..n] + [all[n]];
      sold := sold + [Sale(id, r, w[r].onHand, -q)];
      w := w[r := Balance(w[r].onHand - q, w[r].reserved - q, w[r].avg, costed.value.valuation)];
    }
    assert lines[..|lines|] == lines && SalesOf(b, id, tenant, lines)[..|lines|] == SalesOf(b, id, tenant, lines);
  }

  lemma DeductNothing(b: Balances, tenant: string)
    ensures Deduct(b, tenant, []) == b
  {
    forall r
      ensures Asked(tenant, [], r) == 0
    {
    }
  }

  /** Reading the lines in row order makes no difference to the balances. */
  lemma OrderDoesNotMatter(b: Balances, tenant: string, lines: seq<Line>)
    ensures Deduct(b, tenant, InRowOrder(lines)) == Deduct(b, tenant, lines)
    ensures Shift(b, tenant, InRowOrder(lines), -1) == Shift(b, tenant, lines, -1)
    ensures Covered(b, tenant, lines) ==> Covered(b, tenant, InRowOrder(lines))
  {
    hide Asked, InRowOrder;
    forall r
      ensures Asked(tenant, InRowOrder(lines), r) == Asked(tenant, lines, r)
    {
      AskedInRowOrder(tenant, lines, r);
    }
  }

  // ---- the service

  class Store {
    var balances: Balances
    var reservations: Reservations
    var sales: seq<Sale>

    ghost function Snapshot(): Db
      reads this
    {
      Db(balances, reservations, sales)
    }

    ghost predicate Valid()
      reads this
    {
      Inv(Snapshot())
    }

    constructor ()
      ensures Valid() && Snapshot() == EMPTY
    {
      balances, reservations, sales := map[], map[], [];
      new;
      EveryRunBalances([]);
    }

    /** `reserveWarehouseStock`; `id` is the fresh random id a new reservation would get. */
    method Reserve(env: Env, tenant: string, req: Request, id: string, now: int) returns (outcome: Outcome)
      requires Valid() && id !in reservations
      modifies this
      ensures Valid() && (Snapshot(), outcome) == ReserveTx(old(Snapshot()), env, tenant, req, id, now)
    {
      hide Inv, Normalized, Rows, Relocated, ShortLines, Shift, Available, Trim, Canonical, Row, Asked;
      NothingSold(Snapshot(), id);
      ReserveKeepsInv(Snapshot(), env, tenant, req, id, now);
      var key := Trim(req.key);
      if key == "" || |key| > 128 {
        return Refused(MissingKey);
      }
      var input := NormalizeLines(req.lines);
      if input.None? {
        return Refused(InvalidQuantity);
      }
      if req.branch == "" && (req.caller == "sales" || NoWarehouse(input.value)) {
        return Refused(BranchRequired);
      }
      var payload := Payload(req.caller, req.refType, req.refId, req.branch, req.noExpiry, input.value);
      if x :| x in reservations && SameKey(reservations[x], tenant, req.caller, key) {
        assert Inv(Snapshot());
        SpentKeyAnswers(Snapshot(), env, tenant, req, id, now, x);
        return if reservations[x].payload == payload then Replayed(x) else Refused(Conflict);
      }
      NormalizedKeys(req.lines);
      var rows := Locate(env, req.branch, input.value);
      if rows.None? {
        return Refused(NotAllowed);
      }
      LocatedIsPositive(env, req.branch, req.lines);
      var short := CheckLines(balances, tenant, rows.value);
      if short != [] {
        return Refused(Insufficient(short));
      }
      BalancesOfInv(Snapshot());
      var ok, working := HoldRows(balances, tenant, rows.value);
      if !ok {
        return Crashed;
      }
      balances := working;
      reservations := reservations[id := Reservation(tenant, key, payload, Held, ExpiryOf(req, now), rows.value)];
      return Created(id);
    }

    /** `commitWarehouseReservation` */
    method Commit(tenant: string, id: string) returns (outcome: Outcome)
      requires Valid()
      modifies this
      ensures Valid() && (Snapshot(), outcome) == CommitTx(old(Snapshot()), tenant, id)
    {
      hide Inv, Deduct, SalesOf, InRowOrder, Covered, Asked;
      CommitKeepsInv(Snapshot(), tenant, id);
      if id !in reservations || reservations[id].tenant != tenant {
        return Refused(NotFound);
      }
      var v := reservations[id];
      if v.state.Committed? {
        return Done;
      }
      if !v.state.Held? {
        return Refused(WrongState);
      }
      HeldLines(Snapshot(), id);
      var working, sold := DeductRows(balances, tenant, id, InRowOrder(v.lines));
      balances, sales := working, sales + sold;
      reservations := reservations[id := v.(state := Committed)];
      return Done;
    }

    /** `releaseWarehouseReservation` */
    method Release(tenant: string, id: string) returns (outcome: Outcome)
      requires Valid()
      modifies this
      ensures Valid() && (Snapshot(), outcome) == ReleaseTx(old(Snapshot()), tenant, id)
    {
      hide Inv, Shift, CloseTx;
      if id !in reservations || reservations[id].tenant != tenant {
        return Refused(NotFound);
      }
      match reservations[id].state {
        case Held =>
          GiveBack(id, Released);
          return Done;
        case Committed => return Refused(WrongState);
        case _ => return Done;
      }
    }

    /** `expireWarehouseReservation`; the row is skipped when another transaction has it locked. */
    method Expire(tenant: string, id: string, now: int, locked: bool) returns (expired: bool)
      requires Valid()
      modifies this
      ensures Valid() && expired == (!locked && IsDue(old(Snapshot()), tenant, id, now))
      ensures Snapshot() == if locked then old(Snapshot()) else ExpireTx(old(Snapshot()), tenant, id, now)
    {
      hide Inv, Shift, CloseTx;
      if locked || id !in reservations || reservations[id].tenant != tenant || !reservations[id].state.Held? {
        return false;
      }
      var e := reservations[id].expiresAt;
      if e.None? || e.value >= now {
        return false;
      }
      GiveBack(id, Expired);
      return true;
    }

    method GiveBack(id: string, state: State)
      requires Valid() && id in reservations && reservations[id].state.Held? && (state.Released? || state.Expired?)
      modifies this
      ensures Valid() && Snapshot() == CloseTx(old(Snapshot()), id, state)
    {
      hide Inv, Shift, InRowOrder, Covered, Asked;
      CloseKeepsInv(Snapshot(), id, state);
      HeldLines(Snapshot(), id);
      var v := reservations[id];
      balances := GiveBackRows(balances, v.tenant, InRowOrder(v.lines));
      reservations := reservations[id := v.(state := state)];
    }
  }

  lemma NothingSold(db: Db, id: string)
    requires Inv(db) && id !in db.reservations
    ensures forall r :: Sold(db.sales, id, r) == 0
  {
    hide Sold;
    forall r
      ensures Sold(db.sales, id, r) == 0
    {
      assert Sold(db.sales, id, r) == Due(db.reservations, id, r);
    }
  }

  lemma BalancesOfInv(db: Db)
    requires Inv(db)
    ensures BalancesOk(db.balances)
  {
  }

  /** What the loops need to know of a HELD reservation. */
  lemma HeldLines(db: Db, id: string)
    requires Inv(db) && id in db.reservations && db.reservations[id].state.Held?
    ensures var v := db.reservations[id];
            && BalancesOk(db.balances) && Positive(InRowOrder(v.lines)) && Covered(db.balances, v.tenant, InRowOrder(v.lines))
            && Deduct(db.balances, v.tenant, InRowOrder(v.lines)) == Deduct(db.balances, v.tenant, v.lines)
            && Shift(db.balances, v.tenant, InRowOrder(v.lines), -1) == Shift(db.balances, v.tenant, v.lines, -1)
  {
    HeldIsCovered(db, id);
    InRowOrderIsPositive(db.reservations[id].lines);
    OrderDoesNotMatter(db.balances, db.reservations[id].tenant, db.reservations[id].lines);
  }

  method Locate(env: Env, branch: string, input: seq<Line>) returns (rows: Option<seq<Line>>)
    requires forall i :: 0 <= i < |input| ==> |input[i].key| == 2
    ensures rows == Located(env, branch, input)
  {
    hide Rows, Normalized;
    if branch == "" {
      rows := RowLines(env, input);
      return;
    }
    var moved := RelocateLines(env, branch, input);
    if moved.None? {
      return None;
    }
    var again := NormalizeLines(moved.value);
    if again.None? {
      return None;
    }
    NormalizedKeys(moved.value);
    rows := RowLines(env, again.value);
  }
}
