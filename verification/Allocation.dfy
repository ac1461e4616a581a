/** Sharing a payment out over open documents (receivables or payables). */
module Allocation {

  import opened Arith
  import opened Decimals
  import opened Results

  datatype Error = Validation | PaymentExceeded | SupplierPaymentExceeded | ReceivableNotFound | PayableNotFound

  datatype Kind = Receivable | Payable

  datatype Policy = Reject | Prepayment

  // ---- money

  /** What a caller may pass as an amount. */
  datatype Raw = Missing | NotWhole | Whole(n: int)

  function ParseVnd(raw: Raw, allowZero: bool, allowNegative: bool): Result<int, Error> {
    if !raw.Whole? || !(-MAX_SAFE <= raw.n <= MAX_SAFE) then Err(Validation)
    else if raw.n < 0 && !allowNegative then Err(Validation)
    else if raw.n == 0 && !allowZero then Err(Validation)
    else Ok(raw.n)
  }

  predicate Money(n: int) { 0 <= n <= MAX_SAFE }

  predicate Amount(raw: Raw) { raw.Whole? && 0 < raw.n <= MAX_SAFE }

  // ---- documents and lines

  datatype Document = Document(id: string, code: string, original: int, paid: int, adjusted: int, outstanding: int)

  datatype Status = PartiallyPaid | Paid

  datatype Line = Line(documentId: string, code: string, amount: int, paidAfter: int,
                       outstandingBefore: int, outstandingAfter: int, status: Status)

  datatype Request = Request(documentId: string, amount: Raw)

  datatype Outcome = Outcome(payment: int, total: int, overpayment: int, lines: seq<Line>)

  function LineFor(d: Document, amount: int): Line {
    Line(d.id, d.code, amount, d.paid + amount, d.outstanding, d.outstanding - amount,
         if d.outstanding - amount == 0 then Paid else PartiallyPaid)
  }

  function Allocated(lines: seq<Line>): int {
    if lines == [] then 0 else lines[0].amount + Allocated(lines[1..])
  }

  lemma {:induction false} AllocatedAppend(xs: seq<Line>, ys: seq<Line>)
    ensures Allocated(xs + ys) == Allocated(xs) + Allocated(ys)
  {
    if xs == [] {
      assert xs + ys == ys;
    } else {
      AllocatedAppend(xs[1..], ys);
      assert (xs + ys)[1..] == xs[1..] + ys;
    }
  }

  /** What the caller does with the lines: each named document takes over its paid and outstanding. */
  function Settle(d: Document, lines: seq<Line>): Document
    decreases lines
  {
    if lines == [] then d
    else if lines[0].documentId == d.id
    then Settle(d.(paid := lines[0].paidAfter, outstanding := lines[0].outstandingAfter), lines[1..])
    else Settle(d, lines[1..])
  }

  function SettleAll(docs: seq<Document>, lines: seq<Line>): seq<Document> {
    seq(|docs|, i requires 0 <= i < |docs| => Settle(docs[i], lines))
  }

  lemma {:induction false} SettleOthers(d: Document, lines: seq<Line>)
    requires forall k :: 0 <= k < |lines| ==> lines[k].documentId != d.id
    ensures Settle(d, lines) == d
  {
    if lines != [] {
      SettleOthers(d, lines[1..]);
    }
  }

  /** A document that has received `n` more. */
  function Credited(d: Document, n: int): Document { d.(paid := d.paid + n, outstanding := d.outstanding - n) }

  predicate UniqueIds(docs: seq<Document>) {
    forall i, j :: 0 <= i < j < |docs| ==> docs[i].id != docs[j].id
  }

  /** What the table's constraints keep of a document. */
  predicate Balanced(d: Document) {
    && d.paid >= 0 && d.outstanding >= 0 && d.paid + d.outstanding <= MAX_SAFE
    && d.paid + d.adjusted + d.outstanding == d.original
  }

  predicate AllBalanced(docs: seq<Document>) { forall i :: 0 <= i < |docs| ==> Balanced(docs[i]) }

  function Owed(docs: seq<Document>): int {
    if docs == [] then 0 else docs[0].outstanding + Owed(docs[1..])
  }

  lemma {:induction false} OwedTake(docs: seq<Document>, i: nat)
    requires i < |docs|
    ensures Owed(docs[..i + 1]) == Owed(docs[..i]) + docs[i].outstanding
  {
    if i == 0 {
      assert docs[..1][1..] == [];
    } else {
      OwedTake(docs[1..], i - 1);
      assert docs[..i + 1][1..] == docs[1..][..i] && docs[..i][1..] == docs[1..][..i - 1];
    }
  }

  lemma {:induction false} OwedGrows(docs: seq<Document>, i: nat, j: nat)
    requires AllBalanced(docs) && i <= j <= |docs|
    ensures 0 <= Owed(docs[..i]) <= Owed(docs[..j])
    decreases j
  {
    if i < j {
      OwedGrows(docs, i, j - 1);
      OwedTake(docs, j - 1);
    } else if i > 0 {
      OwedGrows(docs, i - 1, i - 1);
      OwedTake(docs, i - 1);
    }
  }

  // ---- first in, first out

  function Prepend(done: seq<Line>, r: Result<seq<Line>, Error>): (all: Result<seq<Line>, Error>)
    ensures done == [] ==> all == r
  {
    match r
    case Ok(lines) => assert [] + lines == lines; Ok(done + lines)
    case Err(e) => Err(e)
  }

  /** A document the loop cannot use when it comes to it. */
  predicate Unusable(d: Document) { !Money(d.outstanding) || (d.outstanding > 0 && !Money(d.paid)) }

  function Fifo(docs: seq<Document>, left: int): Result<seq<Line>, Error> {
    if docs == [] || left <= 0 then Ok([])
    else if Unusable(docs[0]) then Err(Validation)
    else if docs[0].outstanding == 0 then Fifo(docs[1..], left)
    else
      var amount := Min(left, docs[0].outstanding);
      Prepend([LineFor(docs[0], amount)], Fifo(docs[1..], left - amount))
  }

  /** What a document receives when `left` is left at its turn. */
  function Share(left: int, outstanding: int): int { if left <= 0 then 0 else Min(left, outstanding) }

  /** The reference: each document receives what the payment leaves after all that is owed before it. */
  function Poured(docs: seq<Document>, payment: int): seq<Document> {
    seq(|docs|, i requires 0 <= i < |docs| =>
      Credited(docs[i], Share(payment - Owed(docs[..i]), docs[i].outstanding)))
  }

  predicate AllUsable(docs: seq<Document>) { forall i :: 0 <= i < |docs| ==> !Unusable(docs[i]) }

  /** Is `i` the first unusable document, met with money left? */
  predicate Stops(docs: seq<Document>, left: int, i: nat) {
    i < |docs| && Unusable(docs[i]) && AllUsable(docs[..i]) && Owed(docs[..i]) < left
  }

  /** The loop fails exactly when it comes to an unusable document before the money is gone. */
  lemma {:induction false} FifoFails(docs: seq<Document>, left: int)
    ensures Fifo(docs, left).Err? <==> exists i: nat :: Stops(docs, left, i)
  {
    if docs != [] {
      var amount := Share(left, docs[0].outstanding);
      if i: nat :| Stops(docs, left, i) {
        StopsLater(docs, left, i);
      }
      if left > 0 && Unusable(docs[0]) {
        assert Stops(docs, left, 0);
      } else if left > 0 {
        FifoFails(docs[1..], left - amount);
        if Fifo(docs[1..], left - amount).Err? {
          var i: nat :| Stops(docs[1..], left - amount, i);
          StopsEarlier(docs, left, i);
        }
      }
    }
  }

  lemma {:induction false} UsableOweNothingNegative(docs: seq<Document>)
    requires AllUsable(docs)
    ensures Owed(docs) >= 0
  {
    if docs != [] {
      UsableOweNothingNegative(docs[1..]);
    }
  }

  lemma StopsLater(docs: seq<Document>, left: int, i: nat)
    requires Stops(docs, left, i)
    ensures left > 0
    ensures i > 0 ==> !Unusable(docs[0]) && Stops(docs[1..], left - Share(left, docs[0].outstanding), i - 1)
  {
    UsableOweNothingNegative(docs[..i]);
    if i > 0 {
      assert !Unusable(docs[..i][0]);
      assert docs[..i][1..] == docs[1..][..i - 1];
      UsableOweNothingNegative(docs[1..][..i - 1]);
    }
  }

  lemma StopsEarlier(docs: seq<Document>, left: int, i: nat)
    requires docs != [] && left > 0 && !Unusable(docs[0])
    requires Stops(docs[1..], left - Share(left, docs[0].outstanding), i)
    ensures Stops(docs, left, i + 1)
  {
    assert docs[..i + 1][1..] == docs[1..][..i];
    UsableOweNothingNegative(docs[1..][..i]);
    assert docs[..i + 1] == [docs[0]] + docs[1..][..i];
  }

  /** On sound documents the loop succeeds, allocates as much as it can, and pours. */
  lemma {:induction false} FifoPours(docs: seq<Document>, left: nat)
    requires AllBalanced(docs) && UniqueIds(docs)
    ensures var r := Fifo(docs, left);
            && r.Ok?
            && Allocated(r.value) == Min(left, Owed(docs))
            && SettleAll(docs, r.value) == Poured(docs, left)
  {
    hide SettleAll, Poured, Balanced;
    OweNothingNegative(docs);
    if docs == [] {
      NothingToPour(left);
    } else {
      var d, rest := docs[0], docs[1..];
      var amount := Share(left, d.outstanding);
      assert Balanced(d) && docs == [d] + rest;
      OweNothingNegative(rest);
      DocumentIsUsable(d);
      FifoPours(rest, left - amount);
      PourFirst(d, rest, left);
      SettleFirst(d, rest, left);
      if left > 0 && d.outstanding > 0 {
        AllocatedAppend([LineFor(d, amount)], Fifo(rest, left - amount).value);
        assert Allocated([LineFor(d, amount)]) == amount;
      }
    }
  }

  lemma NothingToPour(left: int)
    ensures SettleAll([], []) == Poured([], left)
  {
  }

  lemma DocumentIsUsable(d: Document)
    requires Balanced(d)
    ensures !Unusable(d) && d.outstanding >= 0
  {
  }

  lemma {:induction false} OweNothingNegative(docs: seq<Document>)
    requires AllBalanced(docs)
    ensures Owed(docs) >= 0
  {
    if docs != [] {
      OweNothingNegative(docs[1..]);
    }
  }

  lemma PourFirst(d: Document, rest: seq<Document>, left: nat)
    requires Balanced(d) && AllBalanced(rest)
    ensures var amount := Share(left, d.outstanding);
            Poured([d] + rest, left) == [Credited(d, amount)] + Poured(rest, left - amount)
  {
    var docs := [d] + rest;
    forall i | 0 < i < |docs|
      ensures Owed(docs[..i]) == d.outstanding + Owed(rest[..i - 1]) && Owed(rest[..i - 1]) >= 0
    {
      assert docs[..i][1..] == rest[..i - 1];
      OweNothingNegative(rest[..i - 1]);
    }
  }

  /** Only the first line, if any, is about the first document. */
  lemma SettleFirst(d: Document, rest: seq<Document>, left: nat)
    requires Balanced(d) && UniqueIds([d] + rest) && Fifo([d] + rest, left).Ok? && Fifo(rest, left - Share(left, d.outstanding)).Ok?
    ensures var amount := Share(left, d.outstanding);
            SettleAll([d] + rest, Fifo([d] + rest, left).value)
            == [Credited(d, amount)] + SettleAll(rest, Fifo(rest, left - amount).value)
  {
    hide Fifo, Settle, SettleAll, Balanced, UniqueIds;
    var amount := Share(left, d.outstanding);
    var all, more := Fifo([d] + rest, left).value, Fifo(rest, left - amount).value;
    FifoFirst(d, rest, left);
    DocumentIsUsable(d);
    OthersDiffer(d, rest);
    FifoNames(rest, left - amount, d.id);
    SettleOthers(d, more);
    SettleOthers(Credited(d, amount), more);
    SettleStep(d, LineFor(d, amount), more);
    forall i | 0 <= i < |rest|
      ensures Settle(rest[i], all) == Settle(rest[i], more)
    {
      SettleStep(rest[i], LineFor(d, amount), more);
    }
    SettleEach(d, rest, all, more);
  }

  lemma OthersDiffer(d: Document, rest: seq<Document>)
    requires UniqueIds([d] + rest)
    ensures forall i :: 0 <= i < |rest| ==> rest[i].id != d.id
  {
    forall i | 0 <= i < |rest|
      ensures rest[i].id != d.id
    {
      assert rest[i] == ([d] + rest)[i + 1] && d == ([d] + rest)[0];
    }
  }

  lemma SettleEach(d: Document, rest: seq<Document>, all: seq<Line>, more: seq<Line>)
    requires forall i :: 0 <= i < |rest| ==> Settle(rest[i], all) == Settle(rest[i], more)
    ensures SettleAll([d] + rest, all) == [Settle(d, all)] + SettleAll(rest, more)
  {
  }

  lemma SettleStep(e: Document, line: Line, more: seq<Line>)
    ensures Settle(e, [line] + more)
            == Settle(if e.id == line.documentId then e.(paid := line.paidAfter, outstanding := line.outstandingAfter) else e, more)
  {
    assert ([line] + more)[1..] == more;
  }

  lemma FifoFirst(d: Document, rest: seq<Document>, left: nat)
    requires Balanced(d) && Fifo(rest, left - Share(left, d.outstanding)).Ok?
    ensures var amount := Share(left, d.outstanding);
            var more := Fifo(rest, left - amount).value;
            Fifo([d] + rest, left) == Ok(if left > 0 && d.outstanding > 0 then [LineFor(d, amount)] + more else more)
  {
    assert ([d] + rest)[1..] == rest;
  }

  /** Lines name documents of the list only. */
  lemma {:induction false} FifoNames(docs: seq<Document>, left: int, id: string)
    requires Fifo(docs, left).Ok? && forall i :: 0 <= i < |docs| ==> docs[i].id != id
    ensures forall k :: 0 <= k < |Fifo(docs, left).value| ==> Fifo(docs, left).value[k].documentId != id
  {
    if docs != [] && left > 0 {
      FifoNames(docs[1..], left - Share(left, docs[0].outstanding), id);
    }
  }

  // ---- what pouring keeps

  /** Paid, adjusted and outstanding still make up the original; identity and adjustment are kept. */
  lemma PouringKeepsBalance(docs: seq<Document>, payment: int)
    requires AllBalanced(docs)
    ensures AllBalanced(Poured(docs, payment))
    ensures UniqueIds(docs) ==> UniqueIds(Poured(docs, payment))
  {
  }

  /** A document that receives anything finds every earlier one paid in full. */
  lemma EarlierArePaidFirst(docs: seq<Document>, payment: int, i: nat, j: nat)
    requires AllBalanced(docs) && i < j < |docs|
    requires Poured(docs, payment)[j] != docs[j]
    ensures Poured(docs, payment)[i].outstanding == 0
  {
    OwedTake(docs, i);
    OwedGrows(docs, i + 1, j);
  }

  lemma {:induction false} OwedAfterPouring(docs: seq<Document>, payment: nat, i: nat)
    requires AllBalanced(docs) && i <= |docs|
    ensures Owed(Poured(docs, payment)[..i]) == Owed(docs[..i]) - Min(payment, Owed(docs[..i]))
  {
    var after := Poured(docs, payment);
    if i > 0 {
      OwedAfterPouring(docs, payment, i - 1);
      OwedTake(docs, i - 1);
      OwedTake(after, i - 1);
      OwedGrows(docs, i - 1, i);
    }
  }

  /** Two payments pour like one. */
  lemma PouringAdds(docs: seq<Document>, p1: nat, p2: nat)
    requires AllBalanced(docs)
    ensures Poured(Poured(docs, p1), p2) == Poured(docs, p1 + p2)
    ensures (p1 - Min(p1, Owed(docs))) + (p2 - Min(p2, Owed(Poured(docs, p1)))) == (p1 + p2) - Min(p1 + p2, Owed(docs))
  {
    hide Owed;
    var after := Poured(docs, p1);
    forall i | 0 <= i < |docs|
      ensures Poured(after, p2)[i] == Poured(docs, p1 + p2)[i]
    {
      OwedAfterPouring(docs, p1, i);
      OwedGrows(docs, 0, i);
    }
    assert docs[..|docs|] == docs && after[..|docs|] == after;
    OwedAfterPouring(docs, p1, |docs|);
    OwedGrows(docs, 0, |docs|);
  }

  // ---- the requested shares

  /** `docMap.get(id)`: of equal ids the last entry wins. */
  function Find(docs: seq<Document>, id: string): (r: Option<Document>)
    ensures r.Some? ==> r.value in docs && r.value.id == id
    ensures r.None? ==> forall i :: 0 <= i < |docs| ==> docs[i].id != id
  {
    if docs == [] then None
    else if docs[|docs| - 1].id == id then Some(docs[|docs| - 1])
    else Find(docs[..|docs| - 1], id)
  }

  function NotFound(kind: Kind): Error { if kind.Receivable? then ReceivableNotFound else PayableNotFound }

  function Exceeded(kind: Kind): Error { if kind.Receivable? then PaymentExceeded else SupplierPaymentExceeded }

  /** One request, given the ids already served. */
  function Serve(docs: seq<Document>, seen: set<string>, req: Request, kind: Kind): Result<Line, Error> {
    if req.documentId in seen then Err(Validation)
    else
      var d := Find(docs, req.documentId);
      if d.None? then Err(NotFound(kind))
      else if !Amount(req.amount) || !Money(d.value.outstanding) || !Money(d.value.paid) then Err(Validation)
      else if req.amount.n > d.value.outstanding then Err(Exceeded(kind))
      else Ok(LineFor(d.value, req.amount.n))
  }

  function ServeAll(docs: seq<Document>, seen: set<string>, reqs: seq<Request>, kind: Kind): Result<seq<Line>, Error>
    decreases reqs
  {
    if reqs == [] then Ok([])
    else
      match Serve(docs, seen, reqs[0], kind)
      case Err(e) => Err(e)
      case Ok(line) => Prepend([line], ServeAll(docs, seen + {reqs[0].documentId}, reqs[1..], kind))
  }

  /** A request that can be met by itself. */
  predicate Fits(docs: seq<Document>, req: Request) {
    var d := Find(docs, req.documentId);
    && d.Some? && Amount(req.amount) && Money(d.value.outstanding) && Money(d.value.paid)
    && req.amount.n <= d.value.outstanding
  }

  predicate Distinct(reqs: seq<Request>) {
    forall i, j :: 0 <= i < j < |reqs| ==> reqs[i].documentId != reqs[j].documentId
  }

  predicate Unseen(reqs: seq<Request>, seen: set<string>) {
    forall i :: 0 <= i < |reqs| ==> reqs[i].documentId !in seen
  }

  predicate AllFit(docs: seq<Document>, reqs: seq<Request>) { forall i :: 0 <= i < |reqs| ==> Fits(docs, reqs[i]) }

  /** The requests are served together exactly when they name different documents and each fits. */
  lemma {:induction false} ServedIff(docs: seq<Document>, seen: set<string>, reqs: seq<Request>, kind: Kind)
    ensures ServeAll(docs, seen, reqs, kind).Ok? <==> Distinct(reqs) && Unseen(reqs, seen) && AllFit(docs, reqs)
    decreases reqs
  {
    if reqs != [] {
      var next := seen + {reqs[0].documentId};
      ServedIff(docs, next, reqs[1..], kind);
      assert Distinct(reqs) && Unseen(reqs, seen) && AllFit(docs, reqs)
        <==> Fits(docs, reqs[0]) && reqs[0].documentId !in seen
             && Distinct(reqs[1..]) && Unseen(reqs[1..], next) && AllFit(docs, reqs[1..]) by {
        assert forall i :: 0 < i < |reqs| ==> reqs[i] == reqs[1..][i - 1];
        assert forall i :: 0 <= i < |reqs| - 1 ==> reqs[1..][i] == reqs[i + 1];
      }
    }
  }

  /** What the requests ask for one document. */
  function Asked(reqs: seq<Request>, id: string): int {
    if reqs == [] then 0
    else (if reqs[0].documentId == id && reqs[0].amount.Whole? then reqs[0].amount.n else 0) + Asked(reqs[1..], id)
  }

  function AskedInAll(reqs: seq<Request>): int {
    if reqs == [] then 0 else (if reqs[0].amount.Whole? then reqs[0].amount.n else 0) + AskedInAll(reqs[1..])
  }

  lemma {:induction false} AskedNothing(reqs: seq<Request>, id: string)
    requires forall i :: 0 <= i < |reqs| ==> reqs[i].documentId != id
    ensures Asked(reqs, id) == 0
  {
    if reqs != [] {
      AskedNothing(reqs[1..], id);
    }
  }

  /** Served requests credit each document with exactly what was asked for it. */
  lemma {:induction false} ServedCredits(docs: seq<Document>, seen: set<string>, reqs: seq<Request>, kind: Kind, i: nat)
    requires UniqueIds(docs) && i < |docs| && ServeAll(docs, seen, reqs, kind).Ok?
    ensures var lines := ServeAll(docs, seen, reqs, kind).value;
            Settle(docs[i], lines) == Credited(docs[i], Asked(reqs, docs[i].id)) && Allocated(lines) == AskedInAll(reqs)
    ensures Asked(reqs, docs[i].id) == 0 || 0 < Asked(reqs, docs[i].id) <= docs[i].outstanding
    decreases reqs
  {
    if reqs != [] {
      var lines := ServeAll(docs, seen, reqs, kind).value;
      var next := seen + {reqs[0].documentId};
      var rest := ServeAll(docs, next, reqs[1..], kind).value;
      assert lines[1..] == rest;
      ServedCredits(docs, next, reqs[1..], kind, i);
      if reqs[0].documentId == docs[i].id {
        ServedIff(docs, next, reqs[1..], kind);
        AskedNothing(reqs[1..], docs[i].id);
        ServedNames(docs, next, reqs[1..], kind);
        SettleOthers(Credited(docs[i], reqs[0].amount.n), rest);
      }
    }
  }

  lemma {:induction false} ServedNames(docs: seq<Document>, seen: set<string>, reqs: seq<Request>, kind: Kind)
    requires ServeAll(docs, seen, reqs, kind).Ok?
    ensures var lines := ServeAll(docs, seen, reqs, kind).value;
            |lines| == |reqs| && forall k :: 0 <= k < |reqs| ==> lines[k].documentId == reqs[k].documentId
    decreases reqs
  {
    if reqs != [] {
      ServedNames(docs, seen + {reqs[0].documentId}, reqs[1..], kind);
    }
  }

  // ---- the whole calculation

  function Lines(payment: int, docs: seq<Document>, requests: Option<seq<Request>>, kind: Kind): Result<seq<Line>, Error> {
    if requests.Some? && requests.value != [] then ServeAll(docs, {}, requests.value, kind) else Fifo(docs, payment)
  }

  function Calculated(payment: Raw, docs: seq<Document>, requests: Option<seq<Request>>, policy: Policy, kind: Kind): Result<Outcome, Error> {
    if !Amount(payment) then Err(Validation)
    else
      match Lines(payment.n, docs, requests, kind)
      case Err(e) => Err(e)
      case Ok(lines) =>
        var total := Allocated(lines);
        if total > payment.n || (total < payment.n && policy.Reject?) then Err(Exceeded(kind))
        else Ok(Outcome(payment.n, total, payment.n - total, lines))
  }

  /** `calculateDocumentAllocations` */
  method Calculate(payment: Raw, docs: seq<Document>, requests: Option<seq<Request>>, policy: Policy, kind: Kind)
    returns (r: Result<Outcome, Error>)
    ensures r == Calculated(payment, docs, requests, policy, kind)
  {
    var parsed := ParseVnd(payment, false, false);
    if parsed.Err? {
      return Err(parsed.error);
    }
    var served: Result<seq<Line>, Error>;
    var total: int;
    if requests.Some? && requests.value != [] {
      served, total := ServeRequests(docs, requests.value, kind);
    } else {
      served, total := ShareOut(docs, parsed.value);
    }
    if served.Err? {
      return Err(served.error);
    }
    if total > parsed.value {
      return Err(Exceeded(kind));
    }
    var over := parsed.value - total;
    if over > 0 && policy.Reject? {
      return Err(Exceeded(kind));
    }
    return Ok(Outcome(parsed.value, total, over, served.value));
  }

  method ServeRequests(docs: seq<Document>, reqs: seq<Request>, kind: Kind) returns (r: Result<seq<Line>, Error>, total: int)
    ensures r == ServeAll(docs, {}, reqs, kind)
    ensures r.Ok? ==> total == Allocated(r.value)
  {
    var lines: seq<Line> := [];
    var seen: set<string> := {};
    total := 0;
    for i := 0 to |reqs|
      invariant ServeAll(docs, {}, reqs, kind) == Prepend(lines, ServeAll(docs, seen, reqs[i..], kind))
      invariant total == Allocated(lines)
    {
      var req := reqs[i];
      assert reqs[i..][0] == req && reqs[i..][1..] == reqs[i + 1..];
      if req.documentId in seen {
        return Err(Validation), total;
      }
      var d := Find(docs, req.documentId);
      if d.None? {
        return Err(NotFound(kind)), total;
      }
      var amount := ParseVnd(req.amount, false, false);
      var before := ParseVnd(Whole(d.value.outstanding), true, false);
      var paid := ParseVnd(Whole(d.value.paid), true, false);
      if amount.Err? || before.Err? || paid.Err? {
        return Err(Validation), total;
      }
      if amount.value > before.value {
        return Err(Exceeded(kind)), total;
      }
      var line := LineFor(d.value, amount.value);
      ghost var rest := ServeAll(docs, seen + {req.documentId}, reqs[i + 1..], kind);
      PrependTwice(lines, line, rest);
      AllocatedAppend(lines, [line]);
      seen := seen + {req.documentId};
      lines := lines + [line];
      total := total + amount.value;
    }
    assert lines + [] == lines;
    r := Ok(lines);
  }

  lemma PrependTwice(done: seq<Line>, line: Line, r: Result<seq<Line>, Error>)
    ensures Prepend(done, Prepend([line], r)) == Prepend(done + [line], r)
  {
    if r.Ok? {
      assert done + ([line] + r.value) == done + [line] + r.value;
    }
  }

  method ShareOut(docs: seq<Document>, payment: int) returns (r: Result<seq<Line>, Error>, total: int)
    ensures r == Fifo(docs, payment)
    ensures r.Ok? ==> total == Allocated(r.value)
  {
    var lines: seq<Line> := [];
    var left := payment;
    total := 0;
    for i := 0 to |docs|
      invariant Fifo(docs, payment) == Prepend(lines, Fifo(docs[i..], left))
      invariant total == Allocated(lines)
    {
      if left <= 0 {
        break;
      }
      var d := docs[i];
      assert docs[i..][0] == d && docs[i..][1..] == docs[i + 1..];
      var before := ParseVnd(Whole(d.outstanding), true, false);
      if before.Err? {
        return Err(before.error), total;
      }
      if before.value <= 0 {
        continue;
      }
      var paid := ParseVnd(Whole(d.paid), true, false);
      if paid.Err? {
        return Err(paid.error), total;
      }
      var amount := if left <= before.value then left else before.value;
      var line := LineFor(d, amount);
      PrependTwice(lines, line, Fifo(docs[i + 1..], left - amount));
      AllocatedAppend(lines, [line]);
      left := left - amount;
      total := total + amount;
      lines := lines + [line];
    }
    assert lines + [] == lines;
    r := Ok(lines);
  }

  // ---- main results

  /** A payment with no requests: it takes the smaller of the payment and all that is owed, and is
      refused only when the policy is to reject what is left over. */
  lemma FifoPayment(payment: nat, docs: seq<Document>, policy: Policy, kind: Kind)
    requires 0 < payment <= MAX_SAFE && AllBalanced(docs) && UniqueIds(docs)
    ensures var r := Calculated(Whole(payment), docs, None, policy, kind);
            var taken := Min(payment, Owed(docs));
            && (r.Ok? <==> policy.Prepayment? || payment <= Owed(docs))
            && (r.Err? ==> r.error == Exceeded(kind))
            && (r.Ok? ==> r.value.total == taken && r.value.overpayment == payment - taken
                          && SettleAll(docs, r.value.lines) == Poured(docs, payment))
  {
    FifoPours(docs, payment);
  }

  /** Under PREPAYMENT two payments in turn leave the documents, and the prepayment balance, as one
      payment of their sum does. */
  lemma SplittingAPayment(p1: nat, p2: nat, docs: seq<Document>, kind: Kind)
    requires 0 < p1 && 0 < p2 && p1 + p2 <= MAX_SAFE && AllBalanced(docs) && UniqueIds(docs)
    ensures var first := Calculated(Whole(p1), docs, None, Prepayment, kind);
            var whole := Calculated(Whole(p1 + p2), docs, None, Prepayment, kind);
            && first.Ok? && whole.Ok?
            && var between := SettleAll(docs, first.value.lines);
               var second := Calculated(Whole(p2), between, None, Prepayment, kind);
               && second.Ok?
               && SettleAll(between, second.value.lines) == SettleAll(docs, whole.value.lines)
               && first.value.overpayment + second.value.overpayment == whole.value.overpayment
  {
    hide Calculated, SettleAll, Poured;
    FifoPayment(p1, docs, Prepayment, kind);
    FifoPayment(p1 + p2, docs, Prepayment, kind);
    PouringKeepsBalance(docs, p1);
    FifoPayment(p2, Poured(docs, p1), Prepayment, kind);
    PouringAdds(docs, p1, p2);
  }

  /** A payment with requests succeeds exactly when they name different documents, each fits, and
      together they use the payment up, or leave a rest the policy allows. */
  lemma RequestedPayment(payment: nat, docs: seq<Document>, reqs: seq<Request>, policy: Policy, kind: Kind)
    requires 0 < payment <= MAX_SAFE && UniqueIds(docs) && reqs != []
    ensures var r := Calculated(Whole(payment), docs, Some(reqs), policy, kind);
            && (r.Ok? <==> Distinct(reqs) && AllFit(docs, reqs)
                           && AskedInAll(reqs) <= payment && (policy.Reject? ==> AskedInAll(reqs) == payment))
            && (r.Ok? ==> r.value.total == AskedInAll(reqs) && r.value.overpayment == payment - AskedInAll(reqs)
                          && forall i :: 0 <= i < |docs| ==>
                               && Settle(docs[i], r.value.lines) == Credited(docs[i], Asked(reqs, docs[i].id))
                               && (Balanced(docs[i]) ==> Balanced(Settle(docs[i], r.value.lines))))
  {
    ServedIff(docs, {}, reqs, kind);
    if ServeAll(docs, {}, reqs, kind).Ok? {
      assert docs != [] by {
        assert Fits(docs, reqs[0]);
      }
      forall i | 0 <= i < |docs|
        ensures var lines := ServeAll(docs, {}, reqs, kind).value;
                Settle(docs[i], lines) == Credited(docs[i], Asked(reqs, docs[i].id)) && Allocated(lines) == AskedInAll(reqs)
        ensures Asked(reqs, docs[i].id) == 0 || 0 < Asked(reqs, docs[i].id) <= docs[i].outstanding
      {
        ServedCredits(docs, {}, reqs, kind, i);
      }
      ServedCredits(docs, {}, reqs, kind, 0);
    }
  }
}
