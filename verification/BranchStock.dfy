/** The branch store: stock per (tenant, branch, SKU), holds per (tenant, order) and the ledger. */
module BranchStock {
  // Every public operation is one database transaction, taken as atomic: it either commits all its
  // writes or, when it throws, none.
  import opened Arith
  import opened Decimals
  import opened Lines
  import Sums

  datatype Item = Item(onHand: int, reserved: int)
  datatype Status = Held | Committed | Released | Expired
  datatype Order = Order(tenant: string, id: string)
  datatype Hold = Hold(branch: string, status: Status, expiresAt: int, lines: seq<Line>)
  datatype Kind = Receipt | Sale | Shortfall
  datatype Entry = Entry(row: Key, change: int, after: int, kind: Kind, ref: string)
  type Stock = map<Key, Item>
  datatype Books = Books(stock: Stock, ledger: seq<Entry>)
  datatype Db = Db(books: Books, holds: map<Order, Hold>)

  const EMPTY := Db(Books(map[], []), map[])

  /** The owner part of a stock row's key: the row of `line` is `Owner(tenant, branch) + line.key`. */
  function Owner(tenant: string, branch: string): Key { [tenant, branch] }

  function Get(stock: Stock, r: Key): Option<Item> {
    if r in stock then Some(stock[r]) else None
  }

  function OnHand(stock: Stock, r: Key): int { if r in stock then stock[r].onHand else 0 }

  function Reserved(stock: Stock, r: Key): int { if r in stock then stock[r].reserved else 0 }

  function Free(stock: Stock, r: Key): int { OnHand(stock, r) - Reserved(stock, r) }

  /** What lines of an owner ask of one stock row. */
  function Asked(owner: Key, lines: seq<Line>, r: Key): int {
    if owner <= r then Total(lines, r[|owner|..]) else 0
  }

  function Reserving(o: Order, h: Hold, r: Key): int {
    if h.status.Held? then Asked(Owner(o.tenant, h.branch), h.lines, r) else 0
  }

  /** The quantity of a row that the held holds ask for. */
  ghost function HeldOf(holds: map<Order, Hold>, r: Key): int {
    Sums.Sum(map o | o in holds :: Reserving(o, holds[o], r))
  }

  function LedgerSum(ledger: seq<Entry>, r: Key): int {
    if ledger == [] then 0
    else LedgerSum(ledger[..|ledger| - 1], r)
         + (if ledger[|ledger| - 1].row == r then ledger[|ledger| - 1].change else 0)
  }

  // ---- the invariant

  /** A receipt or sale row records the running on-hand count; a shortfall row changes nothing and
      records the free quantity, which is at most that count. */
  ghost predicate EntryOk(ledger: seq<Entry>, i: nat)
    requires i < |ledger|
  {
    var count := LedgerSum(ledger[..i + 1], ledger[i].row);
    if ledger[i].kind.Shortfall? then ledger[i].change == 0 && 0 <= ledger[i].after <= count
    else ledger[i].after == count
  }

  ghost predicate LedgerOk(b: Books) {
    && (forall r :: LedgerSum(b.ledger, r) == OnHand(b.stock, r))
    && (forall i :: 0 <= i < |b.ledger| ==> EntryOk(b.ledger, i))
  }

  ghost predicate QuantitiesOk(stock: Stock) {
    forall r :: r in stock ==> 0 <= stock[r].reserved <= stock[r].onHand
  }

  ghost predicate HoldsOk(holds: map<Order, Hold>) {
    forall o :: o in holds ==> Sorted(holds[o].lines) && Positive(holds[o].lines)
  }

  ghost predicate Inv(db: Db) {
    && HoldsOk(db.holds)
    && QuantitiesOk(db.books.stock)
    && (forall r :: HeldOf(db.holds, r) == Reserved(db.books.stock, r))
    && LedgerOk(db.books)
  }

  // ---- what a transaction does to the row of one line

  datatype Mode = Holding | GivingBack | Deducting | Late | Receiving

  datatype Post = Post(change: int, after: int, kind: Kind)

  /** What a late commit takes: at most what the other holds leave free. */
  function Take(item: Option<Item>, q: int): int {
    Min(q, Max(0, if item.Some? then item.value.onHand - item.value.reserved else 0))
  }

  /** The row afterwards; a missing row stays missing except on a receipt. */
  function NewItem(mode: Mode, item: Option<Item>, q: int): Option<Item> {
    match (mode, item)
    case (Receiving, None) => Some(Item(q, 0))
    case (_, None) => None
    case (Holding, Some(i)) => Some(i.(reserved := i.reserved + q))
    case (GivingBack, Some(i)) => Some(i.(reserved := i.reserved - q))
    case (Deducting, Some(i)) => Some(Item(i.onHand - q, i.reserved - q))
    case (Late, Some(i)) => Some(i.(onHand := i.onHand - Take(item, q)))
    case (Receiving, Some(i)) => Some(i.(onHand := i.onHand + q))
  }

  /** The ledger rows written for it. */
  function Posts(mode: Mode, item: Option<Item>, q: int): seq<Post> {
    var onHand := if item.Some? then item.value.onHand else 0;
    var free := if item.Some? then onHand - item.value.reserved else 0;
    match mode
    case Deducting => [Post(-q, onHand - q, Sale)]
    case Receiving => [Post(q, onHand + q, Receipt)]
    case Late =>
      var take := Take(item, q);
      (if take < q then [Post(0, free, Shortfall)] else []) + (if take != 0 then [Post(-take, onHand - take, Sale)] else [])
    case _ => []
  }

  function Put(stock: Stock, r: Key, item: Option<Item>): Stock {
    if item.Some? then stock[r := item.value] else stock
  }

  function ToEntries(posts: seq<Post>, r: Key, ref: string): seq<Entry> {
    seq(|posts|, i requires 0 <= i < |posts| => Entry(r, posts[i].change, posts[i].after, posts[i].kind, ref))
  }

  function PostLine(mode: Mode, b: Books, r: Key, q: int, ref: string): Books {
    var item := Get(b.stock, r);
    Books(Put(b.stock, r, NewItem(mode, item, q)), b.ledger + ToEntries(Posts(mode, item, q), r, ref))
  }

  /** A whole transaction: line after line. */
  function PostAll(mode: Mode, b: Books, owner: Key, lines: seq<Line>, ref: string): Books {
    if lines == [] then b else
      var line := lines[|lines| - 1];
      PostLine(mode, PostAll(mode, b, owner, lines[..|lines| - 1], ref), owner + line.key, line.qty, ref)
  }

  /** Over lines with distinct keys, each asked row is changed once, by the quantity asked, and the
      other rows not at all. */
  lemma {:induction false} PostedRow(mode: Mode, b: Books, owner: Key, lines: seq<Line>, ref: string, r: Key)
    requires Sorted(lines)
    ensures Get(PostAll(mode, b, owner, lines, ref).stock, r) ==
            if owner <= r && r[|owner|..] in Keys(lines) then NewItem(mode, Get(b.stock, r), Asked(owner, lines, r))
            else Get(b.stock, r)
  {
    hide KeyLess;
    if lines != [] {
      var front, line := lines[..|lines| - 1], lines[|lines| - 1];
      PostedRow(mode, b, owner, front, ref, r);
      assert Keys(lines) == Keys(front) + {line.key};
      assert line.key !in Keys(front) by {
        KeyIrreflexive(line.key);
      }
      if owner <= r {
        assert r == owner + r[|owner|..];
        assert r == owner + line.key <==> r[|owner|..] == line.key;
        if r[|owner|..] == line.key {
          TotalElsewhere(front, line.key);
        }
      }
    }
  }

  /** When does a row exist, with quantities in order, for every line of a transaction? */
  ghost predicate Fits(mode: Mode, stock: Stock, owner: Key, line: Line) {
    var r := owner + line.key;
    match mode
    case Holding => line.qty > 0 && line.qty <= Free(stock, r)
    case GivingBack => r in stock && 0 < line.qty <= stock[r].reserved
    case Deducting => r in stock && 0 < line.qty <= stock[r].reserved
    case Late => line.qty >= 0 || r in stock
    case Receiving => line.qty > 0
  }

  ghost predicate AllFit(mode: Mode, stock: Stock, owner: Key, lines: seq<Line>) {
    forall i :: 0 <= i < |lines| ==> Fits(mode, stock, owner, lines[i])
  }

  /** The CHECK constraint of `stock_item` holds after every row of the transaction, and the ledger
      still tells the on-hand count. */
  lemma {:induction false} PostingKeepsBooks(mode: Mode, b: Books, owner: Key, lines: seq<Line>, ref: string)
    requires Sorted(lines) && AllFit(mode, b.stock, owner, lines)
    requires QuantitiesOk(b.stock) && LedgerOk(b)
    ensures QuantitiesOk(PostAll(mode, b, owner, lines, ref).stock)
    ensures LedgerOk(PostAll(mode, b, owner, lines, ref))
  {
    hide KeyLess, LedgerOk, Posts, ToEntries;
    if lines != [] {
      var front, line := lines[..|lines| - 1], lines[|lines| - 1];
      var r := owner + line.key;
      PostingKeepsBooks(mode, b, owner, front, ref);
      PostedRow(mode, b, owner, front, ref, r);
      assert r[|owner|..] == line.key;
      assert line.key !in Keys(front) by {
        KeyIrreflexive(line.key);
      }
      assert Fits(mode, b.stock, owner, line);
      LineKeepsLedger(mode, PostAll(mode, b, owner, front, ref), r, line.qty, ref);
    }
  }

  lemma LedgerAppend(ledger: seq<Entry>, e: Entry, r: Key)
    ensures LedgerSum(ledger + [e], r) == LedgerSum(ledger, r) + (if e.row == r then e.change else 0)
  {
    assert (ledger + [e])[..|ledger|] == ledger;
  }

  /** One more truthful ledger row. */
  lemma PostOne(b: Books, e: Entry, stock': Stock)
    requires LedgerOk(b)
    requires forall r :: OnHand(stock', r) == OnHand(b.stock, r) + (if r == e.row then e.change else 0)
    requires if e.kind.Shortfall? then e.change == 0 && 0 <= e.after <= OnHand(b.stock, e.row)
             else e.after == OnHand(stock', e.row)
    ensures LedgerOk(Books(stock', b.ledger + [e]))
  {
    var longer := b.ledger + [e];
    forall r
      ensures LedgerSum(longer, r) == OnHand(stock', r)
    {
      LedgerAppend(b.ledger, e, r);
    }
    forall i | 0 <= i < |longer|
      ensures EntryOk(longer, i)
    {
      if i < |b.ledger| {
        assert EntryOk(b.ledger, i);
        assert longer[..i + 1] == b.ledger[..i + 1];
      } else {
        assert longer[..i + 1] == longer;
      }
    }
  }

  lemma LineKeepsLedger(mode: Mode, b: Books, r: Key, q: int, ref: string)
    requires QuantitiesOk(b.stock) && LedgerOk(b)
    requires mode.Deducting? ==> r in b.stock
    requires mode.Late? ==> q >= 0 || r in b.stock
    ensures LedgerOk(PostLine(mode, b, r, q, ref))
  {
    hide LedgerSum, EntryOk;
    var b' := PostLine(mode, b, r, q, ref);
    var es := ToEntries(Posts(mode, Get(b.stock, r), q), r, ref);
    if |es| == 0 {
      assert b'.ledger == b.ledger;
      assert forall x :: OnHand(b'.stock, x) == OnHand(b.stock, x);
    } else if |es| == 1 {
      assert b'.ledger == b.ledger + [es[0]];
      PostOne(b, es[0], b'.stock);
    } else {
      PostOne(b, es[0], b.stock);
      PostOne(Books(b.stock, b.ledger + [es[0]]), es[1], b'.stock);
      assert b'.ledger == b.ledger + [es[0]] + [es[1]];
    }
  }

  // ---- the transactions

  datatype Shortage = Shortage(key: Key, requested: int, available: int)

  datatype Outcome = Created | Replayed | Mismatch | Short(shortages: seq<Shortage>)

  /** The lines that do not fit, with what is free for each. */
  function Shortages(stock: Stock, owner: Key, lines: seq<Line>): seq<Shortage> {
    if lines == [] then [] else
      var line := lines[|lines| - 1];
      var free := Free(stock, owner + line.key);
      Shortages(stock, owner, lines[..|lines| - 1])
      + (if owner + line.key in stock && free >= line.qty then [] else [Shortage(line.key, line.qty, free)])
  }

  ghost function ReserveTx(db: Db, o: Order, branch: string, lines: seq<Line>, expiresAt: int): (Db, Outcome) {
    if o in db.holds && (db.holds[o].status.Held? || db.holds[o].status.Committed?) then
      (db, if db.holds[o].branch == branch && SameDemand(db.holds[o].lines, lines) then Replayed else Mismatch)
    else
      var owner, merged := Owner(o.tenant, branch), Canonical(lines);
      var short := Shortages(db.books.stock, owner, merged);
      if short != [] then (db, Short(short))
      else (Db(PostAll(Holding, db.books, owner, merged, o.id), db.holds[o := Hold(branch, Held, expiresAt, merged)]), Created)
  }

  /** Release and expiry: a held hold gives its stock back, anything else is left alone. */
  function CloseTx(db: Db, o: Order, status: Status): Db {
    if o in db.holds && db.holds[o].status.Held? then
      var h := db.holds[o];
      Db(PostAll(GivingBack, db.books, Owner(o.tenant, h.branch), h.lines, o.id), db.holds[o := h.(status := status)])
    else db
  }

  function ExpireTx(db: Db, o: Order, now: int): Db {
    if o in db.holds && db.holds[o].expiresAt < now then CloseTx(db, o, Expired) else db
  }

  /** A late line with a negative quantity and no stock row: the update returns no row to read. */
  ghost predicate Crashes(stock: Stock, owner: Key, lines: seq<Line>) {
    exists i :: 0 <= i < |lines| && lines[i].qty < 0 && owner + lines[i].key !in stock
  }

  /** When a commit fails: only without a hold that is held or committed, and on such a line. */
  ghost predicate CommitFails(db: Db, o: Order, branch: string, items: seq<Line>) {
    && !(o in db.holds && (db.holds[o].status.Held? || db.holds[o].status.Committed?))
    && Crashes(db.books.stock, Owner(o.tenant, if o in db.holds then db.holds[o].branch else branch), Canonical(items))
  }

  ghost function CommitTx(db: Db, o: Order, branch: string, items: seq<Line>): Db {
    if o in db.holds && db.holds[o].status.Committed? then db
    else if o in db.holds && db.holds[o].status.Held? then
      var h := db.holds[o];
      Db(PostAll(Deducting, db.books, Owner(o.tenant, h.branch), h.lines, o.id), db.holds[o := h.(status := Committed)])
    else
      var owner := Owner(o.tenant, if o in db.holds then db.holds[o].branch else branch);
      var merged := Canonical(items);
      if Crashes(db.books.stock, owner, merged) then db
      else Db(PostAll(Late, db.books, owner, merged, o.id),
              if o in db.holds then db.holds[o := db.holds[o].(status := Committed)] else db.holds)
  }

  function ReceiveTx(db: Db, tenant: string, branch: string, lines: seq<Line>, receipt: string): Db {
    db.(books := PostAll(Receiving, db.books, Owner(tenant, branch), Canonical(lines), receipt))
  }

  // ---- every transaction keeps the invariant

  lemma {:induction false} NoShortageMeansFit(stock: Stock, owner: Key, lines: seq<Line>)
    requires Positive(lines)
    ensures Shortages(stock, owner, lines) == [] <==> AllFit(Holding, stock, owner, lines)
  {
    if lines != [] {
      NoShortageMeansFit(stock, owner, lines[..|lines| - 1]);
      assert Fits(Holding, stock, owner, lines[|lines| - 1]) ==> owner + lines[|lines| - 1].key in stock;
    }
  }

  /** A held hold's lines are all covered by the reserved quantities of existing rows. */
  lemma HeldLinesFit(db: Db, o: Order)
    requires Inv(db) && o in db.holds && db.holds[o].status.Held?
    ensures var h := db.holds[o];
            AllFit(GivingBack, db.books.stock, Owner(o.tenant, h.branch), h.lines)
            && AllFit(Deducting, db.books.stock, Owner(o.tenant, h.branch), h.lines)
  {
    var h := db.holds[o];
    var owner := Owner(o.tenant, h.branch);
    forall i | 0 <= i < |h.lines|
      ensures Fits(GivingBack, db.books.stock, owner, h.lines[i])
    {
      var r := owner + h.lines[i].key;
      assert r[|owner|..] == h.lines[i].key;
      TotalOfSorted(h.lines, i);
      ReservingIsBounded(db.holds, o, r);
      assert HeldOf(db.holds, r) == Reserved(db.books.stock, r);
    }
  }

  lemma ReservingIsBounded(holds: map<Order, Hold>, o: Order, r: Key)
    requires HoldsOk(holds) && o in holds
    ensures 0 <= Reserving(o, holds[o], r) <= HeldOf(holds, r)
  {
    var m := map x | x in holds :: Reserving(x, holds[x], r);
    forall x | x in m
      ensures m[x] >= 0
    {
      var owner := Owner(x.tenant, holds[x].branch);
      if owner <= r {
        TotalIsPositive(holds[x].lines, r[|owner|..]);
      }
    }
    Sums.Bounds(m, o);
  }

  lemma HeldAfterWrite(holds: map<Order, Hold>, o: Order, h: Hold, r: Key)
    ensures HeldOf(holds[o := h], r) ==
            HeldOf(holds, r) + Reserving(o, h, r) - (if o in holds then Reserving(o, holds[o], r) else 0)
  {
    var m := map x | x in holds :: Reserving(x, holds[x], r);
    var holds' := holds[o := h];
    assert (map x | x in holds' :: Reserving(x, holds'[x], r)) == m[o := Reserving(o, h, r)];
    Sums.Write(m, o, Reserving(o, h, r));
  }

  /** Moving reserved quantities along with one hold keeps them equal to the held sum. */
  lemma ReservedFollows(db: Db, o: Order, h: Hold, mode: Mode, owner: Key, lines: seq<Line>, sign: int)
    requires forall r :: HeldOf(db.holds, r) == Reserved(db.books.stock, r)
    requires Sorted(lines) && AllFit(mode, db.books.stock, owner, lines)
    requires sign == (match mode case Holding => 1 case GivingBack => -1 case Deducting => -1 case _ => 0)
    requires forall r :: Reserving(o, h, r) - (if o in db.holds then Reserving(o, db.holds[o], r) else 0)
                         == sign * Asked(owner, lines, r)
    ensures forall r :: HeldOf(db.holds[o := h], r) == Reserved(PostAll(mode, db.books, owner, lines, o.id).stock, r)
  {
    forall r
      ensures HeldOf(db.holds[o := h], r) == Reserved(PostAll(mode, db.books, owner, lines, o.id).stock, r)
    {
      HeldAfterWrite(db.holds, o, h, r);
      ReservedAfter(mode, db.books, owner, lines, o.id, r);
    }
  }

  lemma ReservedAfter(mode: Mode, b: Books, owner: Key, lines: seq<Line>, ref: string, r: Key)
    requires Sorted(lines) && AllFit(mode, b.stock, owner, lines)
    ensures Reserved(PostAll(mode, b, owner, lines, ref).stock, r) == Reserved(b.stock, r) +
            (match mode case Holding => Asked(owner, lines, r) case GivingBack => -Asked(owner, lines, r)
             case Deducting => -Asked(owner, lines, r) case _ => 0)
  {
    PostedRow(mode, b, owner, lines, ref, r);
    var after := PostAll(mode, b, owner, lines, ref).stock;
    assert Get(after, r) == None <==> r !in after;
    if owner <= r {
      var k := r[|owner|..];
      assert r == owner + k;
      if k in Keys(lines) {
        var i :| 0 <= i < |lines| && lines[i].key == k;
        assert Fits(mode, b.stock, owner, lines[i]);
        assert mode.Holding? ==> r in b.stock;
      } else {
        TotalElsewhere(lines, k);
      }
    }
  }

  lemma ReserveKeepsInv(db: Db, o: Order, branch: string, lines: seq<Line>, expiresAt: int)
    requires Inv(db) && Positive(lines)
    ensures Inv(ReserveTx(db, o, branch, lines, expiresAt).0)
  {
    if ReserveTx(db, o, branch, lines, expiresAt).1.Created? {
      var owner, merged := Owner(o.tenant, branch), Canonical(lines);
      CanonicalIsSorted(lines);
      CanonicalIsPositive(lines);
      NoShortageMeansFit(db.books.stock, owner, merged);
      ReservedFollows(db, o, Hold(branch, Held, expiresAt, merged), Holding, owner, merged, 1);
      PostingKeepsBooks(Holding, db.books, owner, merged, o.id);
    }
  }

  lemma CloseKeepsInv(db: Db, o: Order, status: Status)
    requires Inv(db) && !status.Held?
    ensures Inv(CloseTx(db, o, status))
  {
    if o in db.holds && db.holds[o].status.Held? {
      var h := db.holds[o];
      var owner := Owner(o.tenant, h.branch);
      HeldLinesFit(db, o);
      ReservedFollows(db, o, h.(status := status), GivingBack, owner, h.lines, -1);
      PostingKeepsBooks(GivingBack, db.books, owner, h.lines, o.id);
    }
  }

  lemma CommitKeepsInv(db: Db, o: Order, branch: string, items: seq<Line>)
    requires Inv(db)
    ensures Inv(CommitTx(db, o, branch, items))
  {
    if o in db.holds && db.holds[o].status.Held? {
      var h := db.holds[o];
      var owner := Owner(o.tenant, h.branch);
      HeldLinesFit(db, o);
      ReservedFollows(db, o, h.(status := Committed), Deducting, owner, h.lines, -1);
      PostingKeepsBooks(Deducting, db.books, owner, h.lines, o.id);
    } else if !(o in db.holds && db.holds[o].status.Committed?) {
      var owner := Owner(o.tenant, if o in db.holds then db.holds[o].branch else branch);
      var merged := Canonical(items);
      if !Crashes(db.books.stock, owner, merged) {
        CanonicalIsSorted(items);
        PostingKeepsBooks(Late, db.books, owner, merged, o.id);
        forall r
          ensures HeldOf(CommitTx(db, o, branch, items).holds, r)
                  == Reserved(PostAll(Late, db.books, owner, merged, o.id).stock, r)
        {
          ReservedAfter(Late, db.books, owner, merged, o.id, r);
          if o in db.holds {
            HeldAfterWrite(db.holds, o, db.holds[o].(status := Committed), r);
          }
        }
      }
    }
  }

  lemma ReceiveKeepsInv(db: Db, tenant: string, branch: string, lines: seq<Line>, receipt: string)
    requires Inv(db) && Positive(lines)
    ensures Inv(ReceiveTx(db, tenant, branch, lines, receipt))
  {
    var owner, merged := Owner(tenant, branch), Canonical(lines);
    CanonicalIsSorted(lines);
    CanonicalIsPositive(lines);
    PostingKeepsBooks(Receiving, db.books, owner, merged, receipt);
    forall r {
      ReservedAfter(Receiving, db.books, owner, merged, receipt, r);
    }
  }

  // ---- whole runs

  datatype Op =
    | DoReceive(tenant: string, branch: string, lines: seq<Line>, receipt: string)
    | DoReserve(order: Order, branch: string, lines: seq<Line>, expiresAt: int)
    | DoRelease(order: Order)
    | DoExpire(order: Order, now: int)
    | DoCommit(order: Order, branch: string, lines: seq<Line>)

  /** The request validation: quantities of receipts and reservations are at least one. A completed
      order's lines come from an event and are not validated. */
  predicate Allowed(op: Op) {
    (op.DoReceive? || op.DoReserve?) ==> Positive(op.lines)
  }

  ghost function Step(db: Db, op: Op): Db {
    match op
    case DoReceive(tenant, branch, lines, receipt) => ReceiveTx(db, tenant, branch, lines, receipt)
    case DoReserve(o, branch, lines, expiresAt) => ReserveTx(db, o, branch, lines, expiresAt).0
    case DoRelease(o) => CloseTx(db, o, Released)
    case DoExpire(o, now) => ExpireTx(db, o, now)
    case DoCommit(o, branch, lines) => CommitTx(db, o, branch, lines)
  }

  ghost function Run(db: Db, ops: seq<Op>): Db {
    if ops == [] then db else Step(Run(db, ops[..|ops| - 1]), ops[|ops| - 1])
  }

  lemma StepKeepsInv(db: Db, op: Op)
    requires Inv(db) && Allowed(op)
    ensures Inv(Step(db, op))
  {
    match op
    case DoReceive(tenant, branch, lines, receipt) => ReceiveKeepsInv(db, tenant, branch, lines, receipt);
    case DoReserve(o, branch, lines, expiresAt) => ReserveKeepsInv(db, o, branch, lines, expiresAt);
    case DoRelease(o) => CloseKeepsInv(db, o, Released);
    case DoExpire(o, now) => CloseKeepsInv(db, o, Expired);
    case DoCommit(o, branch, lines) => CommitKeepsInv(db, o, branch, lines);
  }

  /** After any run from an empty store: each row's reserved quantity is the sum of the held holds on
      it, between zero and on hand; on hand is the sum of the ledger's changes; and receipt and sale
      rows carry the running count. */
  lemma {:induction false} EveryRunBalances(ops: seq<Op>)
    requires forall i :: 0 <= i < |ops| ==> Allowed(ops[i])
    ensures Inv(Run(EMPTY, ops))
  {
    if ops == [] {
      forall r
        ensures HeldOf(EMPTY.holds, r) == 0
      {
        NothingHeld(EMPTY.holds, r);
      }
    } else {
      EveryRunBalances(ops[..|ops| - 1]);
      StepKeepsInv(Run(EMPTY, ops[..|ops| - 1]), ops[|ops| - 1]);
    }
  }

  lemma NothingHeld(holds: map<Order, Hold>, r: Key)
    ensures holds.Keys == {} ==> HeldOf(holds, r) == 0
  {
    var m := map o | o in holds :: Reserving(o, holds[o], r);
    assert m.Keys == holds.Keys;
    Sums.OfNone(m);
  }

  /** A new hold is made exactly when every SKU's total is free; then each asked row's reservation
      grows by that total, and nothing else about the stock changes. */
  lemma ReserveIsAllOrNothing(db: Db, o: Order, branch: string, lines: seq<Line>, expiresAt: int)
    requires Inv(db) && Positive(lines)
    requires o !in db.holds || db.holds[o].status.Released? || db.holds[o].status.Expired?
    ensures var (db', outcome) := ReserveTx(db, o, branch, lines, expiresAt);
            var owner := Owner(o.tenant, branch);
            && (outcome.Created? <==> forall k :: k in Keys(lines) ==> Total(lines, k) <= Free(db.books.stock, owner + k))
            && (!outcome.Created? ==> db' == db)
            && (outcome.Created? ==> forall r :: OnHand(db'.books.stock, r) == OnHand(db.books.stock, r)
                                                 && Reserved(db'.books.stock, r) == Reserved(db.books.stock, r) + Asked(owner, lines, r))
  {
    var (db', outcome) := ReserveTx(db, o, branch, lines, expiresAt);
    var owner, merged := Owner(o.tenant, branch), Canonical(lines);
    CanonicalIsSorted(lines);
    CanonicalIsPositive(lines);
    NoShortageMeansFit(db.books.stock, owner, merged);
    FitIsPerKey(db.books.stock, owner, lines);
    if outcome.Created? {
      forall r
        ensures OnHand(db'.books.stock, r) == OnHand(db.books.stock, r)
        ensures Reserved(db'.books.stock, r) == Reserved(db.books.stock, r) + Asked(owner, lines, r)
      {
        ReservedAfter(Holding, db.books, owner, merged, o.id, r);
        PostedRow(Holding, db.books, owner, merged, o.id, r);
        assert Get(db'.books.stock, r) == None <==> r !in db'.books.stock;
        if owner <= r {
          CanonicalTotal(lines, r[|owner|..]);
        }
      }
    }
  }

  lemma FitIsPerKey(stock: Stock, owner: Key, lines: seq<Line>)
    requires Positive(lines)
    ensures AllFit(Holding, stock, owner, Canonical(lines))
            <==> forall k :: k in Keys(lines) ==> Total(lines, k) <= Free(stock, owner + k)
  {
    var merged := Canonical(lines);
    CanonicalIsSorted(lines);
    CanonicalIsPositive(lines);
    forall i | 0 <= i < |merged|
      ensures merged[i].qty == Total(lines, merged[i].key) && merged[i].key in Keys(merged)
    {
      TotalOfSorted(merged, i);
      CanonicalTotal(lines, merged[i].key);
    }
    if AllFit(Holding, stock, owner, merged) {
      forall k | k in Keys(lines)
        ensures Total(lines, k) <= Free(stock, owner + k)
      {
        var i :| 0 <= i < |merged| && merged[i].key == k;
        assert Fits(Holding, stock, owner, merged[i]);
      }
    }
  }

  /** Releasing (or expiring) a fresh hold puts every stock row back as it was. */
  lemma CloseUndoesReserve(db: Db, o: Order, branch: string, lines: seq<Line>, expiresAt: int, status: Status)
    requires Inv(db) && Positive(lines)
    requires ReserveTx(db, o, branch, lines, expiresAt).1.Created?
    ensures CloseTx(ReserveTx(db, o, branch, lines, expiresAt).0, o, status).books.stock == db.books.stock
  {
    hide PostAll, KeyLess, Canonical, Inv;
    var owner, merged := Owner(o.tenant, branch), Canonical(lines);
    CanonicalIsSorted(lines);
    var held := PostAll(Holding, db.books, owner, merged, o.id);
    var after := PostAll(GivingBack, held, owner, merged, o.id).stock;
    forall r
      ensures Get(after, r) == Get(db.books.stock, r)
    {
      PostedRow(Holding, db.books, owner, merged, o.id, r);
      PostedRow(GivingBack, held, owner, merged, o.id, r);
    }
    SameRows(after, db.books.stock);
  }

  lemma SameRows(a: Stock, b: Stock)
    requires forall r :: Get(a, r) == Get(b, r)
    ensures a == b
  {
    forall r
      ensures r in a <==> r in b
      ensures r in a ==> a[r] == b[r]
    {
      assert Get(a, r) == Get(b, r);
    }
  }

  // ---- the loops inside the transactions, on a working copy that only a commit makes visible

  method ReceiveLines(b: Books, owner: Key, merged: seq<Line>, receipt: string) returns (w: Books)
    ensures w == PostAll(Receiving, b, owner, merged, receipt)
  {
    w := b;
    for n := 0 to |merged|
      invariant w == PostAll(Receiving, b, owner, merged[..n], receipt)
    {
      assert merged[..n + 1][..n] == merged[..n];
      var r, q := owner + merged[n].key, merged[n].qty;
      var onHand := OnHand(w.stock, r) + q;
      w := Books(w.stock[r := Item(onHand, Reserved(w.stock, r))], w.ledger + [Entry(r, q, onHand, Kind.Receipt, receipt)]);
    }
    assert merged[..|merged|] == merged;
  }

  /** One conditional update per line; a line that misses is reported with what is free. */
  method HoldLines(b: Books, owner: Key, merged: seq<Line>, ref: string) returns (w: Books, shortages: seq<Shortage>)
    requires Sorted(merged)
    ensures shortages == Shortages(b.stock, owner, merged)
    ensures shortages == [] ==> w == PostAll(Holding, b, owner, merged, ref)
  {
    hide Total, KeyLess;
    w, shortages := b, [];
    for n := 0 to |merged|
      invariant shortages == Shortages(b.stock, owner, merged[..n])
      invariant shortages == [] ==> w == PostAll(Holding, b, owner, merged[..n], ref)
      invariant forall j :: n <= j < |merged| ==> Get(w.stock, owner + merged[j].key) == Get(b.stock, owner + merged[j].key)
    {
      assert merged[..n + 1][..n] == merged[..n];
      var r, q := owner + merged[n].key, merged[n].qty;
      assert Get(w.stock, r) == Get(b.stock, r);
      LaterRowsDiffer(owner, merged, n);
      if r in w.stock && w.stock[r].onHand - w.stock[r].reserved >= q {
        assert w.ledger + [] == w.ledger;
        w := w.(stock := w.stock[r := w.stock[r].(reserved := w.stock[r].reserved + q)]);
      } else {
        shortages := shortages + [Shortage(merged[n].key, q, Free(w.stock, r))];
      }
    }
    assert merged[..|merged|] == merged;
  }

  method GiveBackLines(b: Books, owner: Key, lines: seq<Line>, ref: string) returns (w: Books)
    ensures w == PostAll(GivingBack, b, owner, lines, ref)
  {
    w := b;
    for n := 0 to |lines|
      invariant w == PostAll(GivingBack, b, owner, lines[..n], ref)
    {
      assert lines[..n + 1][..n] == lines[..n];
      assert w.ledger + [] == w.ledger;
      var r := owner + lines[n].key;
      if r in w.stock {
        w := w.(stock := w.stock[r := w.stock[r].(reserved := w.stock[r].reserved - lines[n].qty)]);
      }
    }
    assert lines[..|lines|] == lines;
  }

  /** Deducts a hold. Every row exists, so reading the updated row never fails. */
  method DeductLines(b: Books, owner: Key, lines: seq<Line>, ref: string) returns (w: Books)
    requires AllFit(Deducting, b.stock, owner, lines)
    ensures w == PostAll(Deducting, b, owner, lines, ref)
  {
    w := b;
    for n := 0 to |lines|
      invariant w == PostAll(Deducting, b, owner, lines[..n], ref)
    {
      assert lines[..n + 1][..n] == lines[..n];
      var r, q := owner + lines[n].key, lines[n].qty;
      assert r in w.stock by {
        assert Fits(Deducting, b.stock, owner, lines[n]);
        RowsStay(Deducting, b, owner, lines[..n], ref, r);
      }
      var item := Item(w.stock[r].onHand - q, w.stock[r].reserved - q);
      w := Books(w.stock[r := item], w.ledger + [Entry(r, -q, item.onHand, Sale, ref)]);
    }
    assert lines[..|lines|] == lines;
  }

  /** One line deducted without a hold, at most what is free; fails where the updated row does not
      exist. */
  method LateRow(b: Books, r: Key, q: int, ref: string) returns (ok: bool, w: Books)
    ensures ok == (q >= 0 || r in b.stock)
    ensures ok ==> w == PostLine(Late, b, r, q, ref)
  {
    var free := Free(b.stock, r);
    var take := Min(q, Max(0, free));
    ok, w := true, b;
    if take < q {
      w := w.(ledger := w.ledger + [Entry(r, 0, free, Shortfall, ref)]);
    }
    if take != 0 {
      if r !in b.stock {
        ok := false;
        return;
      }
      var item := b.stock[r].(onHand := b.stock[r].onHand - take);
      w := Books(w.stock[r := item], w.ledger + [Entry(r, -take, item.onHand, Sale, ref)]);
    }
    assert w.ledger == b.ledger + ToEntries(Posts(Late, Get(b.stock, r), q), r, ref);
  }

  method LateLines(b: Books, owner: Key, merged: seq<Line>, ref: string) returns (ok: bool, w: Books)
    ensures ok == !Crashes(b.stock, owner, merged)
    ensures ok ==> w == PostAll(Late, b, owner, merged, ref)
  {
    hide Posts, NewItem;
    w, ok := b, true;
    for n := 0 to |merged|
      invariant ok && w == PostAll(Late, b, owner, merged[..n], ref)
      invariant forall j :: 0 <= j < n ==> merged[j].qty >= 0 || owner + merged[j].key in b.stock
    {
      assert merged[..n + 1][..n] == merged[..n];
      var r := owner + merged[n].key;
      RowsStay(Late, b, owner, merged[..n], ref, r);
      ok, w := LateRow(w, r, merged[n].qty, ref);
      if !ok {
        return;
      }
    }
    assert merged[..|merged|] == merged;
  }

  // ---- the service

  class Store {
    var books: Books
    var holds: map<Order, Hold>

    ghost function Snapshot(): Db
      reads this
    {
      Db(books, holds)
    }

    ghost predicate Valid()
      reads this
    {
      Inv(Snapshot())
    }

    constructor ()
      ensures Valid() && Snapshot() == EMPTY
    {
      books, holds := Books(map[], []), map[];
      new;
      EveryRunBalances([]);
    }

    /** `StockService.receive`; `active` is what the branch projection says of the branch. */
    method Receive(tenant: string, branch: string, active: bool, lines: seq<Line>, receipt: string) returns (ok: bool)
      requires Valid() && Positive(lines)
      modifies this
      ensures Valid() && ok == active
      ensures Snapshot() == if ok then Step(old(Snapshot()), DoReceive(tenant, branch, lines, receipt)) else old(Snapshot())
    {
      if !active {
        return false;
      }
      ReceiveKeepsInv(Snapshot(), tenant, branch, lines, receipt);
      var merged := MergeLines(lines);
      books := ReceiveLines(books, [tenant, branch], merged, receipt);
      return true;
    }

    /** `reserve`: holds every line or nothing, idempotent by (tenant, order). */
    method Reserve(o: Order, branch: string, lines: seq<Line>, expiresAt: int) returns (outcome: Outcome)
      requires Valid() && Positive(lines)
      modifies this
      ensures Valid()
      ensures (Snapshot(), outcome) == ReserveTx(old(Snapshot()), o, branch, lines, expiresAt)
    {
      ReserveKeepsInv(Snapshot(), o, branch, lines, expiresAt);
      if o in holds && (holds[o].status.Held? || holds[o].status.Committed?) {
        var same := SameLines(holds[o].lines, lines);
        return if holds[o].branch != branch || !same then Mismatch else Replayed;
      }
      var merged := MergeLines(lines);
      CanonicalIsSorted(lines);
      var working, shortages := HoldLines(books, [o.tenant, branch], merged, o.id);
      if shortages != [] {
        return Short(shortages);
      }
      books := working;
      holds := holds[o := Hold(branch, Held, expiresAt, merged)];
      return Created;
    }

    /** `giveBack`, inside the release and expiry transactions. */
    method GiveBack(o: Order, status: Status)
      requires Valid() && o in holds && holds[o].status.Held? && !status.Held?
      modifies this
      ensures Valid() && Snapshot() == CloseTx(old(Snapshot()), o, status)
    {
      CloseKeepsInv(Snapshot(), o, status);
      var h := holds[o];
      books := GiveBackLines(books, [o.tenant, h.branch], h.lines, o.id);
      holds := holds[o := h.(status := status)];
    }

    method Release(o: Order)
      requires Valid()
      modifies this
      ensures Valid() && Snapshot() == Step(old(Snapshot()), DoRelease(o))
    {
      if o in holds && holds[o].status.Held? {
        GiveBack(o, Released);
      }
    }

    /** The transaction of one candidate. */
    method ExpireOne(o: Order, now: int) returns (done: bool)
      requires Valid()
      modifies this
      ensures Valid() && done == IsOverdue(old(holds), o, now)
      ensures Snapshot() == Step(old(Snapshot()), DoExpire(o, now))
      ensures holds == if done then old(holds)[o := old(holds)[o].(status := Expired)] else old(holds)
    {
      hide Inv;
      done := o in holds && holds[o].status.Held? && holds[o].expiresAt < now;
      if done {
        GiveBack(o, Expired);
      }
    }

    /** `expireDue`: one transaction per candidate. `due` is what the scan returned, perhaps stale by
        now, and `locked` the rows another transaction holds (they are skipped). */
    method ExpireDue(due: seq<Order>, now: int, locked: set<Order>) returns (expired: nat)
      requires Valid()
      modifies this
      ensures Valid() && expired == |DueHolds(old(holds), due, now, locked)|
      ensures Snapshot() == Run(old(Snapshot()), Expiries(due, now, locked))
    {
      hide Inv, DueHolds, AfterExpiry, Step, IsOverdue;
      NothingDue(holds, now, locked);
      expired := 0;
      for n := 0 to |due|
        invariant Valid() && expired == |DueHolds(old(holds), due[..n], now, locked)|
        invariant AfterExpiry(old(holds), holds, DueHolds(old(holds), due[..n], now, locked))
        invariant Snapshot() == Run(old(Snapshot()), Expiries(due[..n], now, locked))
      {
        assert due[..n + 1][..n] == due[..n];
        OneMoreDue(old(holds), holds, due, n, now, locked);
        if due[n] !in locked {
          RunOneMore(old(Snapshot()), Expiries(due[..n], now, locked), DoExpire(due[n], now));
          var done := ExpireOne(due[n], now);
          expired := expired + if done then 1 else 0;
        } else {
          assert Expiries(due[..n + 1], now, locked) == Expiries(due[..n], now, locked);
        }
      }
      assert due[..|due|] == due;
    }

    /** `commit`: the hold becomes a deduction; without a hold, what is free is deducted and the gap is
        recorded. Returns false when the transaction fails, exactly on a late line with a negative total
        and no stock row. */
    method Commit(o: Order, branch: string, items: seq<Line>) returns (ok: bool)
      requires Valid()
      modifies this
      ensures Valid()
      ensures Snapshot() == Step(old(Snapshot()), DoCommit(o, branch, items))
      ensures ok <==> !CommitFails(old(Snapshot()), o, branch, items)
      ensures !ok ==> Snapshot() == old(Snapshot())
    {
      CommitKeepsInv(Snapshot(), o, branch, items);
      if o in holds && holds[o].status.Committed? {
        return true;
      }
      if o in holds && holds[o].status.Held? {
        HeldLinesFit(Snapshot(), o);
        books := DeductLines(books, [o.tenant, holds[o].branch], holds[o].lines, o.id);
        holds := holds[o := holds[o].(status := Committed)];
        return true;
      }
      var merged := MergeLines(items);
      var done, working := LateLines(books, [o.tenant, if o in holds then holds[o].branch else branch], merged, o.id);
      if !done {
        return false;
      }
      books := working;
      if o in holds {
        holds := holds[o := holds[o].(status := Committed)];
      }
      return true;
    }
  }

  lemma RunOneMore(db: Db, ops: seq<Op>, op: Op)
    ensures Run(db, ops + [op]) == Step(Run(db, ops), op)
  {
    assert (ops + [op])[..|ops|] == ops;
  }

  predicate IsOverdue(holds: map<Order, Hold>, o: Order, now: int) {
    o in holds && holds[o].status.Held? && holds[o].expiresAt < now
  }

  /** The overdue holds among the candidates, leaving out locked ones. */
  ghost function DueHolds(holds: map<Order, Hold>, due: seq<Order>, now: int, locked: set<Order>): set<Order> {
    set o | o in due && o !in locked && IsOverdue(holds, o, now)
  }

  /** Exactly these holds have expired. */
  ghost predicate AfterExpiry(before: map<Order, Hold>, after: map<Order, Hold>, gone: set<Order>) {
    && gone <= before.Keys && after.Keys == before.Keys
    && forall o :: o in before ==> after[o] == if o in gone then before[o].(status := Expired) else before[o]
  }

  lemma NothingDue(holds: map<Order, Hold>, now: int, locked: set<Order>)
    ensures DueHolds(holds, [], now, locked) == {} && AfterExpiry(holds, holds, {})
  {
  }

  /** The next candidate expires now exactly when it was overdue at first and was not met before. */
  lemma OneMoreDue(before: map<Order, Hold>, holds: map<Order, Hold>, due: seq<Order>, n: nat, now: int, locked: set<Order>)
    requires n < |due| && AfterExpiry(before, holds, DueHolds(before, due[..n], now, locked))
    ensures var o, gone, next := due[n], DueHolds(before, due[..n], now, locked), DueHolds(before, due[..n + 1], now, locked);
            if o !in locked && IsOverdue(holds, o, now)
            then |next| == |gone| + 1 && AfterExpiry(before, holds[o := holds[o].(status := Expired)], next)
            else next == gone
  {
    var o, gone, next := due[n], DueHolds(before, due[..n], now, locked), DueHolds(before, due[..n + 1], now, locked);
    assert due[..n + 1] == due[..n] + [o];
    if o !in locked && IsOverdue(before, o, now) {
      assert next == gone + {o};
    } else {
      assert next == gone;
    }
  }

  function Expiries(due: seq<Order>, now: int, locked: set<Order>): seq<Op> {
    if due == [] then [] else
      Expiries(due[..|due| - 1], now, locked)
      + (if due[|due| - 1] in locked then [] else [DoExpire(due[|due| - 1], now)])
  }

  lemma {:induction false} RowsStay(mode: Mode, b: Books, owner: Key, lines: seq<Line>, ref: string, r: Key)
    requires !mode.Receiving?
    ensures r in PostAll(mode, b, owner, lines, ref).stock <==> r in b.stock
  {
    if lines != [] {
      RowsStay(mode, b, owner, lines[..|lines| - 1], ref, r);
    }
  }

  lemma LaterRowsDiffer(owner: Key, lines: seq<Line>, n: nat)
    requires Sorted(lines) && n < |lines|
    ensures forall j :: n < j < |lines| ==> owner + lines[j].key != owner + lines[n].key
  {
    forall j | n < j < |lines|
      ensures owner + lines[j].key != owner + lines[n].key
    {
      KeyIrreflexive(lines[n].key);
      assert (owner + lines[j].key)[|owner|..] == lines[j].key;
      assert (owner + lines[n].key)[|owner|..] == lines[n].key;
    }
  }
}
