/** What the branch store answers and writes, operation by operation: outcomes, stock, holds and ledger
    rows, for every state and every input. */
module BranchAnswers {
  import opened Arith
  import opened Decimals
  import opened Lines
  import opened BranchStock

  predicate Active(db: Db, o: Order) { o in db.holds && (db.holds[o].status.Held? || db.holds[o].status.Committed?) }

  // ---- repeated requests

  predicate GivesBack(op: Op, o: Order) { (op.DoRelease? || op.DoExpire?) && op.order == o }

  /** A hold keeps its branch, lines and expiry until it is released or expires. */
  lemma {:induction false} HoldSurvives(db: Db, ops: seq<Op>, o: Order)
    requires Active(db, o) && forall i :: 0 <= i < |ops| ==> !GivesBack(ops[i], o)
    ensures var later := Run(db, ops);
            Active(later, o) && later.holds[o] == db.holds[o].(status := later.holds[o].status)
  {
    hide PostAll, Canonical, Shortages, SameDemand, Crashes;
    if ops != [] {
      HoldSurvives(db, ops[..|ops| - 1], o);
    }
  }

  /** Once a request has made a hold, and as long as it is not given back, every further request for the
      order is answered by comparing the two: the same branch, SKUs and total per SKU replay it, anything
      else is a mismatch; and nothing changes. */
  lemma RepeatIsAnswered(db: Db, o: Order, branch: string, lines: seq<Line>, expiresAt: int, ops: seq<Op>,
                         branch': string, lines': seq<Line>, expiresAt': int)
    requires ReserveTx(db, o, branch, lines, expiresAt).1.Created?
    requires forall i :: 0 <= i < |ops| ==> !GivesBack(ops[i], o)
    ensures var later := Run(ReserveTx(db, o, branch, lines, expiresAt).0, ops);
            var same := branch' == branch && Keys(lines') == Keys(lines)
                        && forall k :: k in Keys(lines) ==> Total(lines', k) == Total(lines, k);
            ReserveTx(later, o, branch', lines', expiresAt') == (later, if same then Replayed else Mismatch)
  {
    hide PostAll, Canonical, Shortages, Run, Keys, Total;
    var made := ReserveTx(db, o, branch, lines, expiresAt).0;
    HoldSurvives(made, ops, o);
    CanonicalKeepsDemand(lines);
  }

  // ---- reserving

  lemma {:induction false} ShortagesOf(stock: Stock, owner: Key, lines: seq<Line>, s: Shortage)
    requires Positive(lines)
    ensures s in Shortages(stock, owner, lines)
            <==> exists i :: 0 <= i < |lines| && IsShort(stock, owner, lines[i], s)
  {
    hide Free;
    if lines != [] {
      var n := |lines| - 1;
      var front := lines[..n];
      ShortagesOf(stock, owner, front, s);
      assert forall i :: 0 <= i < n ==> front[i] == lines[i];
      assert Free(stock, owner + lines[n].key) >= lines[n].qty ==> owner + lines[n].key in stock by {
        MissingIsNotFree(stock, owner + lines[n].key);
      }
      assert s in Shortages(stock, owner, lines) <==> s in Shortages(stock, owner, front) || IsShort(stock, owner, lines[n], s);
    }
  }

  lemma MissingIsNotFree(stock: Stock, r: Key)
    ensures r !in stock ==> Free(stock, r) == 0
  {
  }

  predicate IsShort(stock: Stock, owner: Key, line: Line, s: Shortage) {
    s == Shortage(line.key, line.qty, Free(stock, owner + line.key)) && line.qty > s.available
  }

  /** A refused reservation reports exactly the SKUs whose total is not free, each with the total asked and
      what is free. */
  lemma ShortagesAre(db: Db, o: Order, branch: string, lines: seq<Line>, expiresAt: int, s: Shortage)
    requires Positive(lines) && !Active(db, o)
    ensures var (after, answer) := ReserveTx(db, o, branch, lines, expiresAt);
            var free := Free(db.books.stock, [o.tenant, branch] + s.key);
            && (answer.Created? || answer.Short?)
            && (answer.Short? ==>
                  && after == db
                  && (s in answer.shortages
                      <==> s.key in Keys(lines) && s.requested == Total(lines, s.key) > free && s.available == free))
  {
    hide PostAll, Shortages, Free, KeyLess, Canonical;
    var owner, merged := Owner(o.tenant, branch), Canonical(lines);
    CanonicalIsSorted(lines);
    CanonicalIsPositive(lines);
    ShortagesOf(db.books.stock, owner, merged, s);
    CanonicalTotal(lines, s.key);
    if s.key in Keys(lines) {
      assert s.key in Keys(merged);
      var i :| 0 <= i < |merged| && merged[i].key == s.key;
      TotalOfSorted(merged, i);
    }
    forall i | 0 <= i < |merged| && merged[i].key == s.key
      ensures merged[i].qty == Total(lines, s.key) && s.key in Keys(lines)
    {
      assert s.key in Keys(merged);
      TotalOfSorted(merged, i);
    }
  }

  /** The hold a request makes: the branch and expiry asked for, and lines that ask for the same, in key
      order; no ledger row is written. */
  lemma NewHold(db: Db, o: Order, branch: string, lines: seq<Line>, expiresAt: int)
    requires ReserveTx(db, o, branch, lines, expiresAt).1.Created?
    ensures var after := ReserveTx(db, o, branch, lines, expiresAt).0;
            && o in after.holds && after.holds - {o} == db.holds - {o} && after.books.ledger == db.books.ledger
            && var h := after.holds[o];
               && h.branch == branch && h.status.Held? && h.expiresAt == expiresAt
               && SameDemand(h.lines, lines) && Sorted(h.lines)
  {
    hide Canonical, Shortages, KeyLess, Keys, SameDemand;
    CanonicalKeepsDemand(lines);
    CanonicalIsSorted(lines);
    NothingWritten(Holding, db.books, Owner(o.tenant, branch), Canonical(lines), o.id);
  }

  lemma {:induction false} NothingWritten(mode: Mode, b: Books, owner: Key, lines: seq<Line>, ref: string)
    requires mode.Holding? || mode.GivingBack?
    ensures PostAll(mode, b, owner, lines, ref).ledger == b.ledger
  {
    if lines != [] {
      NothingWritten(mode, b, owner, lines[..|lines| - 1], ref);
    }
  }

  // ---- giving back

  /** Only the status of this order's hold differs. */
  ghost predicate OnlyStatus(db: Db, after: Db, o: Order, status: Status) {
    && o in db.holds && o in after.holds && after.holds - {o} == db.holds - {o}
    && after.holds[o].status == status && after.holds[o].branch == db.holds[o].branch
    && after.holds[o].expiresAt == db.holds[o].expiresAt && after.holds[o].lines == db.holds[o].lines
  }

  /** Releasing or expiring frees exactly what a held hold asked for; it expires exactly once its time has
      passed. */
  lemma GivingBackIs(db: Db, o: Order, now: int)
    requires Inv(db)
    ensures var released, expired := CloseTx(db, o, Released), ExpireTx(db, o, now);
            var held := o in db.holds && db.holds[o].status.Held?;
            && (!held ==> released == db) && (!(held && db.holds[o].expiresAt < now) ==> expired == db)
            && (held ==> OnlyStatus(db, released, o, Released) && Freed(db, released, o))
            && (held && db.holds[o].expiresAt < now ==> OnlyStatus(db, expired, o, Expired) && Freed(db, expired, o))
  {
    hide Inv, PostAll, Asked;
    if o in db.holds && db.holds[o].status.Held? {
      CloseFrees(db, o, Released);
      CloseFrees(db, o, Expired);
    }
  }

  ghost predicate Freed(db: Db, after: Db, o: Order)
    requires o in db.holds
  {
    && after.books.ledger == db.books.ledger
    && forall r :: OnHand(after.books.stock, r) == OnHand(db.books.stock, r)
                   && Reserved(after.books.stock, r)
                      == Reserved(db.books.stock, r) - Asked([o.tenant, db.holds[o].branch], db.holds[o].lines, r)
  }

  lemma CloseFrees(db: Db, o: Order, status: Status)
    requires Inv(db) && o in db.holds && db.holds[o].status.Held?
    ensures Freed(db, CloseTx(db, o, status), o)
  {
    hide KeyLess, Asked, LedgerOk, HeldOf;
    var h := db.holds[o];
    var owner := Owner(o.tenant, h.branch);
    HeldLinesFit(db, o);
    NothingWritten(GivingBack, db.books, owner, h.lines, o.id);
    forall r
      ensures OnHand(CloseTx(db, o, status).books.stock, r) == OnHand(db.books.stock, r)
      ensures Reserved(CloseTx(db, o, status).books.stock, r) == Reserved(db.books.stock, r) - Asked(owner, h.lines, r)
    {
      ReservedAfter(GivingBack, db.books, owner, h.lines, o.id, r);
      OnHandAfter(GivingBack, db.books, owner, h.lines, o.id, r);
    }
  }

  /** On hand after a transaction, row by row. */
  lemma OnHandAfter(mode: Mode, b: Books, owner: Key, lines: seq<Line>, ref: string, r: Key)
    requires Sorted(lines) && AllFit(mode, b.stock, owner, lines)
    ensures OnHand(PostAll(mode, b, owner, lines, ref).stock, r) == OnHand(b.stock, r) +
            (match mode case Holding => 0 case GivingBack => 0 case Deducting => -Asked(owner, lines, r)
             case Receiving => Asked(owner, lines, r)
             case Late => if r in b.stock then -Min(Asked(owner, lines, r), Max(0, Free(b.stock, r))) else 0)
  {
    hide PostAll;
    PostedRow(mode, b, owner, lines, ref, r);
    var after := PostAll(mode, b, owner, lines, ref).stock;
    assert Get(after, r) == None <==> r !in after;
    if owner <= r {
      var k := r[|owner|..];
      assert r == owner + k;
      if k in Keys(lines) {
        var i :| 0 <= i < |lines| && lines[i].key == k;
        assert Fits(mode, b.stock, owner, lines[i]);
      } else {
        TotalElsewhere(lines, k);
      }
    }
  }

  /** A sweep over candidates expires exactly the unlocked ones that are held and whose time has passed. */
  lemma {:induction false} SweepIs(db: Db, due: seq<Order>, now: int, locked: set<Order>, o: Order)
    ensures var after := Run(db, Expiries(due, now, locked));
            && (o in after.holds <==> o in db.holds)
            && (o in db.holds ==>
                  var h := db.holds[o];
                  after.holds[o] == if o in due && o !in locked && h.status.Held? && now > h.expiresAt
                                    then h.(status := Expired) else h)
  {
    hide PostAll;
    if due != [] {
      var n := |due| - 1;
      var front, last := due[..n], due[n];
      SweepIs(db, front, now, locked, o);
      assert due == front + [last];
      if last in locked {
        assert Expiries(due, now, locked) == Expiries(front, now, locked);
      } else {
        RunOneMore(db, Expiries(front, now, locked), DoExpire(last, now));
      }
    }
  }

  // ---- committing

  /** One ledger row for each line, with the count that the line leaves. */
  ghost predicate OneEntryEach(b: Books, after: seq<Entry>, owner: Key, lines: seq<Line>, sign: int, kind: Kind, ref: string) {
    && |after| == |b.ledger| + |lines| && after[..|b.ledger|] == b.ledger
    && forall i :: 0 <= i < |lines| ==>
         var r := owner + lines[i].key;
         after[|b.ledger| + i] == Entry(r, sign * lines[i].qty, OnHand(b.stock, r) + sign * lines[i].qty, kind, ref)
  }

  lemma UntouchedYet(mode: Mode, b: Books, owner: Key, lines: seq<Line>, ref: string)
    requires Sorted(lines) && lines != []
    ensures var n := |lines| - 1;
            Sorted(lines[..n])
            && Get(PostAll(mode, b, owner, lines[..n], ref).stock, owner + lines[n].key) == Get(b.stock, owner + lines[n].key)
  {
    hide PostAll, KeyLess;
    var n := |lines| - 1;
    var r := owner + lines[n].key;
    PostedRow(mode, b, owner, lines[..n], ref, r);
    assert r[|owner|..] == lines[n].key;
    KeyIrreflexive(lines[n].key);
  }

  lemma {:induction false} EntriesOfCommit(b: Books, owner: Key, lines: seq<Line>, ref: string)
    requires Sorted(lines)
    ensures OneEntryEach(b, PostAll(Deducting, b, owner, lines, ref).ledger, owner, lines, -1, Sale, ref)
  {
    hide KeyLess;
    if lines != [] {
      var n := |lines| - 1;
      UntouchedYet(Deducting, b, owner, lines, ref);
      EntriesOfCommit(b, owner, lines[..n], ref);
    }
  }

  lemma {:induction false} EntriesOfReceipt(b: Books, owner: Key, lines: seq<Line>, ref: string)
    requires Sorted(lines)
    ensures OneEntryEach(b, PostAll(Receiving, b, owner, lines, ref).ledger, owner, lines, 1, Receipt, ref)
  {
    hide KeyLess;
    if lines != [] {
      var n := |lines| - 1;
      UntouchedYet(Receiving, b, owner, lines, ref);
      EntriesOfReceipt(b, owner, lines[..n], ref);
    }
  }

  /** A held order is deducted by exactly its lines, on hand and reserved alike, with one sale row a line;
      a committed one is left alone. */
  lemma CommitOfHeldIs(db: Db, o: Order, branch: string, items: seq<Line>)
    requires Inv(db) && Active(db, o)
    ensures var after, h := CommitTx(db, o, branch, items), db.holds[o];
            var owner := [o.tenant, h.branch];
            && (h.status.Committed? ==> after == db)
            && (h.status.Held? ==>
                  && OnlyStatus(db, after, o, Committed)
                  && (forall r :: OnHand(after.books.stock, r) == OnHand(db.books.stock, r) - Asked(owner, h.lines, r)
                                  && Reserved(after.books.stock, r) == Reserved(db.books.stock, r) - Asked(owner, h.lines, r))
                  && OneEntryEach(db.books, after.books.ledger, owner, h.lines, -1, Sale, o.id))
  {
    hide KeyLess, Asked, LedgerOk, HeldOf, PostAll, Canonical, OneEntryEach;
    var h := db.holds[o];
    if h.status.Held? {
      var owner := Owner(o.tenant, h.branch);
      HeldLinesFit(db, o);
      EntriesOfCommit(db.books, owner, h.lines, o.id);
      forall r
        ensures OnHand(CommitTx(db, o, branch, items).books.stock, r) == OnHand(db.books.stock, r) - Asked(owner, h.lines, r)
        ensures Reserved(CommitTx(db, o, branch, items).books.stock, r) == Reserved(db.books.stock, r) - Asked(owner, h.lines, r)
      {
        ReservedAfter(Deducting, db.books, owner, h.lines, o.id, r);
        OnHandAfter(Deducting, db.books, owner, h.lines, o.id, r);
      }
    }
  }

  /** What a late commit writes for one total: a shortfall row when not all of it is free, and a sale row
      for what it takes. */
  predicate IsLateEntry(stock: Stock, r: Key, q: int, ref: string, e: Entry) {
    var take := Min(q, Max(0, Free(stock, r)));
    || (take < q && e == Entry(r, 0, Free(stock, r), Shortfall, ref))
    || (take != 0 && e == Entry(r, -take, OnHand(stock, r) - take, Sale, ref))
  }

  lemma {:induction false} EntriesOfLate(b: Books, owner: Key, lines: seq<Line>, ref: string, e: Entry)
    requires Sorted(lines)
    ensures var ledger := PostAll(Late, b, owner, lines, ref).ledger;
            && b.ledger <= ledger
            && (e in ledger[|b.ledger|..]
                <==> exists i :: 0 <= i < |lines| && IsLateEntry(b.stock, owner + lines[i].key, lines[i].qty, ref, e))
  {
    hide KeyLess, IsLateEntry;
    if lines != [] {
      var n := |lines| - 1;
      var front := lines[..n];
      UntouchedYet(Late, b, owner, lines, ref);
      EntriesOfLate(b, owner, front, ref, e);
      assert forall i :: 0 <= i < n ==> front[i] == lines[i];
      var mid := PostAll(Late, b, owner, front, ref);
      LateEntriesOfLine(mid, b, owner + lines[n].key, lines[n].qty, ref, e);
      var more := ToEntries(Posts(Late, Get(mid.stock, owner + lines[n].key), lines[n].qty), owner + lines[n].key, ref);
      assert PostAll(Late, b, owner, lines, ref).ledger == mid.ledger + more;
      assert (mid.ledger + more)[|b.ledger|..] == mid.ledger[|b.ledger|..] + more;
    }
  }

  lemma LateEntriesOfLine(mid: Books, b: Books, r: Key, q: int, ref: string, e: Entry)
    requires Get(mid.stock, r) == Get(b.stock, r)
    ensures e in ToEntries(Posts(Late, Get(mid.stock, r), q), r, ref) <==> IsLateEntry(b.stock, r, q, ref, e)
  {
    var posts := Posts(Late, Get(mid.stock, r), q);
    var es := ToEntries(posts, r, ref);
    assert |es| == |posts| <= 2;
    assert e in es <==> (|es| > 0 && es[0] == e) || (|es| > 1 && es[1] == e);
    assert Get(b.stock, r) == None <==> r !in b.stock;
  }

  /** An order without a held or committed hold is deducted late, in the branch of its hold if it had one:
      each SKU by its total, but at most by what the other holds leave free, with its sale and shortfall
      rows; or not at all when a line crashes. */
  lemma LateCommitIs(db: Db, o: Order, branch: string, items: seq<Line>, e: Entry)
    requires Inv(db) && !Active(db, o)
    ensures var after := CommitTx(db, o, branch, items);
            var stock, owner := db.books.stock, [o.tenant, if o in db.holds then db.holds[o].branch else branch];
            var crash := exists k :: k in Keys(items) && Total(items, k) < 0 && owner + k !in stock;
            && (CommitFails(db, o, branch, items) <==> crash) && (crash ==> after == db)
            && (!crash ==>
                  && (o in db.holds ==> OnlyStatus(db, after, o, Committed)) && (o !in db.holds ==> after.holds == db.holds)
                  && (forall r :: OnHand(after.books.stock, r) ==
                                  OnHand(stock, r) - (if r in stock then Min(Asked(owner, items, r), Max(0, Free(stock, r))) else 0)
                                  && Reserved(after.books.stock, r) == Reserved(stock, r))
                  && db.books.ledger <= after.books.ledger
                  && (e in after.books.ledger[|db.books.ledger|..]
                      <==> exists k :: k in Keys(items) && IsLateEntry(stock, owner + k, Total(items, k), o.id, e)))
  {
    hide KeyLess, Inv, PostAll, Canonical, Total, IsLateEntry, Asked, Crashes, OnHand, Reserved, Free;
    var stock, owner := db.books.stock, Owner(o.tenant, if o in db.holds then db.holds[o].branch else branch);
    var merged := Canonical(items);
    TotalsOfCanonical(items);
    assert Crashes(stock, owner, merged) <==> exists k :: k in Keys(items) && Total(items, k) < 0 && owner + k !in stock by {
      CrashesPerKey(stock, owner, items);
    }
    if !Crashes(stock, owner, merged) {
      StockAfterLate(db.books, owner, items, o.id);
      EntriesOfLate(db.books, owner, merged, o.id, e);
      LateEntryPerKey(stock, owner, items, o.id, e);
    }
  }

  lemma StockAfterLate(b: Books, owner: Key, items: seq<Line>, ref: string)
    requires !Crashes(b.stock, owner, Canonical(items))
    ensures var after := PostAll(Late, b, owner, Canonical(items), ref).stock;
            forall r :: OnHand(after, r) ==
                        OnHand(b.stock, r) - (if r in b.stock then Min(Asked(owner, items, r), Max(0, Free(b.stock, r))) else 0)
                        && Reserved(after, r) == Reserved(b.stock, r)
  {
    hide KeyLess, PostAll, Canonical, Asked;
    var merged := Canonical(items);
    CanonicalIsSorted(items);
    forall r
      ensures OnHand(PostAll(Late, b, owner, merged, ref).stock, r)
              == OnHand(b.stock, r) - (if r in b.stock then Min(Asked(owner, items, r), Max(0, Free(b.stock, r))) else 0)
      ensures Reserved(PostAll(Late, b, owner, merged, ref).stock, r) == Reserved(b.stock, r)
    {
      ReservedAfter(Late, b, owner, merged, ref, r);
      OnHandAfter(Late, b, owner, merged, ref, r);
      AskedOfCanonical(owner, items, r);
    }
  }

  lemma TotalsOfCanonical(items: seq<Line>)
    ensures var merged := Canonical(items);
            Sorted(merged) && Keys(merged) == Keys(items)
            && forall i :: 0 <= i < |merged| ==> merged[i].qty == Total(items, merged[i].key) && merged[i].key in Keys(items)
  {
    hide KeyLess, Canonical, Total;
    var merged := Canonical(items);
    CanonicalIsSorted(items);
    forall i | 0 <= i < |merged|
      ensures merged[i].qty == Total(items, merged[i].key) && merged[i].key in Keys(items)
    {
      TotalOfSorted(merged, i);
      CanonicalTotal(items, merged[i].key);
      assert merged[i].key in Keys(merged);
    }
  }

  lemma AskedOfCanonical(owner: Key, items: seq<Line>, r: Key)
    ensures Asked(owner, Canonical(items), r) == Asked(owner, items, r)
  {
    if owner <= r {
      CanonicalTotal(items, r[|owner|..]);
    }
  }

  lemma CrashesPerKey(stock: Stock, owner: Key, items: seq<Line>)
    ensures Crashes(stock, owner, Canonical(items))
            <==> exists k :: k in Keys(items) && Total(items, k) < 0 && owner + k !in stock
  {
    hide KeyLess, Canonical, Total;
    var merged := Canonical(items);
    TotalsOfCanonical(items);
    if k :| k in Keys(items) && Total(items, k) < 0 && owner + k !in stock {
      assert k in Keys(merged);
      var i :| 0 <= i < |merged| && merged[i].key == k;
      assert merged[i].qty < 0 && owner + merged[i].key !in stock;
    }
  }

  lemma LateEntryPerKey(stock: Stock, owner: Key, items: seq<Line>, ref: string, e: Entry)
    ensures var merged := Canonical(items);
            (exists i :: 0 <= i < |merged| && IsLateEntry(stock, owner + merged[i].key, merged[i].qty, ref, e))
            <==> exists k :: k in Keys(items) && IsLateEntry(stock, owner + k, Total(items, k), ref, e)
  {
    hide KeyLess, Canonical, Total, IsLateEntry;
    var merged := Canonical(items);
    TotalsOfCanonical(items);
    if k :| k in Keys(items) && IsLateEntry(stock, owner + k, Total(items, k), ref, e) {
      assert k in Keys(merged);
      var i :| 0 <= i < |merged| && merged[i].key == k;
      assert IsLateEntry(stock, owner + merged[i].key, merged[i].qty, ref, e);
    }
  }

  /** A receipt adds each SKU's total to its row, created if need be, with one receipt row a SKU. */
  lemma ReceiptIs(db: Db, tenant: string, branch: string, lines: seq<Line>, receipt: string)
    requires Inv(db) && Positive(lines)
    ensures var after, owner := ReceiveTx(db, tenant, branch, lines, receipt), [tenant, branch];
            && after.holds == db.holds
            && (forall r :: OnHand(after.books.stock, r) == OnHand(db.books.stock, r) + Asked(owner, lines, r)
                            && Reserved(after.books.stock, r) == Reserved(db.books.stock, r))
            && OneEntryEach(db.books, after.books.ledger, owner, Canonical(lines), 1, Receipt, receipt)
  {
    hide KeyLess, Asked, LedgerOk, HeldOf, PostAll, Canonical, OneEntryEach;
    var owner, merged := Owner(tenant, branch), Canonical(lines);
    CanonicalIsSorted(lines);
    CanonicalIsPositive(lines);
    EntriesOfReceipt(db.books, owner, merged, receipt);
    forall r
      ensures OnHand(ReceiveTx(db, tenant, branch, lines, receipt).books.stock, r) == OnHand(db.books.stock, r) + Asked(owner, lines, r)
      ensures Reserved(ReceiveTx(db, tenant, branch, lines, receipt).books.stock, r) == Reserved(db.books.stock, r)
    {
      ReservedAfter(Receiving, db.books, owner, merged, receipt, r);
      OnHandAfter(Receiving, db.books, owner, merged, receipt, r);
      AskedOfCanonical(owner, lines, r);
    }
  }
}
