/** What each line of an allocation says of its document, and which error a payment gets that cannot be
    allocated. */
module AllocationAnswers {
  import opened Arith
  import opened Decimals
  import opened Results
  import opened Allocation

  /** A line tells of its document: what it owed and owes now, what it has paid, and that it is paid exactly
      when nothing is left. */
  predicate IsLineOf(line: Line, d: Document) {
    && line.documentId == d.id && line.code == d.code && 0 < line.amount <= d.outstanding
    && line.outstandingBefore == d.outstanding && line.outstandingAfter + line.amount == d.outstanding
    && line.paidAfter == d.paid + line.amount
    && (line.status.Paid? <==> line.outstandingAfter == 0)
  }

  lemma {:induction false} FifoLines(docs: seq<Document>, left: int, k: nat) returns (i: nat)
    requires Fifo(docs, left).Ok? && k < |Fifo(docs, left).value|
    ensures i < |docs| && IsLineOf(Fifo(docs, left).value[k], docs[i])
    decreases docs
  {
    if docs[0].outstanding == 0 {
      var j := FifoLines(docs[1..], left, k);
      i := j + 1;
    } else if k == 0 {
      i := 0;
    } else {
      var amount := Min(left, docs[0].outstanding);
      assert Fifo(docs, left).value[k] == Fifo(docs[1..], left - amount).value[k - 1];
      var j := FifoLines(docs[1..], left - amount, k - 1);
      i := j + 1;
    }
  }

  /** One line for each request, in their order, for the amount asked. */
  lemma {:induction false} ServedLines(docs: seq<Document>, seen: set<string>, reqs: seq<Request>, kind: Kind, k: nat)
    requires ServeAll(docs, seen, reqs, kind).Ok? && k < |reqs|
    ensures var lines := ServeAll(docs, seen, reqs, kind).value;
            && |lines| == |reqs| && reqs[k].amount == Whole(lines[k].amount)
            && exists i :: 0 <= i < |docs| && docs[i].id == reqs[k].documentId && IsLineOf(lines[k], docs[i])
    decreases reqs
  {
    ServedNames(docs, seen, reqs, kind);
    var lines := ServeAll(docs, seen, reqs, kind).value;
    if k == 0 {
      var d := Find(docs, reqs[0].documentId).value;
      var i :| 0 <= i < |docs| && docs[i] == d;
      assert IsLineOf(lines[0], docs[i]);
    } else {
      ServedLines(docs, seen + {reqs[0].documentId}, reqs[1..], kind, k - 1);
      assert lines[k] == lines[1..][k - 1];
    }
  }

  predicate Known(docs: seq<Document>, id: string) { exists i :: 0 <= i < |docs| && docs[i].id == id }

  predicate AskedBefore(reqs: seq<Request>, k: nat)
    requires k < |reqs|
  {
    exists j :: 0 <= j < k && reqs[j].documentId == reqs[k].documentId
  }

  /** Why request `k` is refused, looked at by itself: asked before, unknown, no amount, or too much. */
  ghost predicate Reason(docs: seq<Document>, reqs: seq<Request>, k: nat, kind: Kind, e: Error)
    requires k < |reqs|
  {
    var req := reqs[k];
    if AskedBefore(reqs, k) then e == Validation
    else if !Known(docs, req.documentId) then e == (match kind case Receivable => ReceivableNotFound case Payable => PayableNotFound)
    else
      var d := Find(docs, req.documentId).value;
      if !(req.amount.Whole? && 1 <= req.amount.n <= 9007199254740991)
         || !(0 <= d.outstanding <= 9007199254740991) || !(0 <= d.paid <= 9007199254740991) then e == Validation
      else req.amount.n > d.outstanding
           && e == (match kind case Receivable => PaymentExceeded case Payable => SupplierPaymentExceeded)
  }

  lemma KnownIs(docs: seq<Document>, id: string)
    ensures Known(docs, id) <==> Find(docs, id).Some?
  {
  }

  function Ids(reqs: seq<Request>): set<string> { set req | req in reqs :: req.documentId }

  lemma {:induction false} ServingStops(docs: seq<Document>, all: seq<Request>, n: nat, kind: Kind) returns (k: nat)
    requires n <= |all| && ServeAll(docs, Ids(all[..n]), all[n..], kind).Err?
    ensures n <= k < |all| && Reason(docs, all, k, kind, ServeAll(docs, Ids(all[..n]), all[n..], kind).error)
    ensures forall j :: n <= j < k ==> Fits(docs, all[j]) && !AskedBefore(all, j)
    decreases |all| - n
  {
    var seen := Ids(all[..n]);
    var reqs := all[n..];
    assert AskedBefore(all, n) <==> all[n].documentId in seen;
    KnownIs(docs, all[n].documentId);
    if Serve(docs, seen, reqs[0], kind).Err? {
      k := n;
    } else {
      assert reqs[1..] == all[n + 1..];
      assert all[..n + 1] == all[..n] + [all[n]];
      assert Ids(all[..n + 1]) == seen + {reqs[0].documentId};
      k := ServingStops(docs, all, n + 1, kind);
    }
  }

  /** An amount is a whole number in the safe range, with a sign the caller allows. */
  lemma AmountIs(raw: Raw, allowZero: bool, allowNegative: bool)
    ensures ParseVnd(raw, allowZero, allowNegative)
            == if raw.Whole? && (1 <= raw.n <= 9007199254740991 || (allowZero && raw.n == 0)
                                 || (allowNegative && -9007199254740991 <= raw.n <= -1))
               then Ok(raw.n) else Err(Validation)
  {
  }

  /** A payment that is no positive whole number in range is refused; one with requests is refused for the
      reason of the first request that cannot be met. */
  lemma RefusalIs(payment: Raw, docs: seq<Document>, reqs: seq<Request>, policy: Policy, kind: Kind) returns (k: nat)
    ensures !(payment.Whole? && 1 <= payment.n <= 9007199254740991) ==>
              forall requests :: Calculated(payment, docs, requests, policy, kind) == Err(Validation)
    ensures payment.Whole? && 1 <= payment.n <= 9007199254740991 && reqs != [] && !(Distinct(reqs) && AllFit(docs, reqs)) ==>
              && Calculated(payment, docs, Some(reqs), policy, kind).Err? && k < |reqs|
              && Reason(docs, reqs, k, kind, Calculated(payment, docs, Some(reqs), policy, kind).error)
              && forall j :: 0 <= j < k ==> Fits(docs, reqs[j]) && !AskedBefore(reqs, j)
  {
    hide Fits;
    k := 0;
    if payment.Whole? && 1 <= payment.n <= 9007199254740991 && reqs != [] && !(Distinct(reqs) && AllFit(docs, reqs)) {
      ServedIff(docs, {}, reqs, kind);
      assert reqs[0..] == reqs && Ids(reqs[..0]) == {};
      k := ServingStops(docs, reqs, 0, kind);
    }
  }

  /** What is too much or too little for the policy is refused as exceeded, by the kind of document. */
  lemma ExceededIs(payment: nat, docs: seq<Document>, reqs: seq<Request>, policy: Policy, kind: Kind)
    requires 1 <= payment <= 9007199254740991 && reqs != [] && Distinct(reqs) && AllFit(docs, reqs) && UniqueIds(docs)
    ensures var r := Calculated(Whole(payment), docs, Some(reqs), policy, kind);
            r.Err? ==> && (AskedInAll(reqs) > payment || (policy.Reject? && AskedInAll(reqs) < payment))
                       && r.error == (match kind case Receivable => PaymentExceeded case Payable => SupplierPaymentExceeded)
  {
    RequestedPayment(payment, docs, reqs, policy, kind);
    ServedIff(docs, {}, reqs, kind);
  }

  /** Without requests the only refusals are an unusable document and a rest the policy does not allow. */
  lemma FifoRefusalIs(payment: nat, docs: seq<Document>, policy: Policy, kind: Kind)
    requires 1 <= payment <= 9007199254740991
    ensures var r := Calculated(Whole(payment), docs, None, policy, kind);
            && r == Calculated(Whole(payment), docs, Some([]), policy, kind)
            && (Fifo(docs, payment).Err? ==> r == Err(Validation))
            && (r.Err? && Fifo(docs, payment).Ok? ==>
                  r.error == (match kind case Receivable => PaymentExceeded case Payable => SupplierPaymentExceeded))
  {
    FifoErrorIs(docs, payment);
  }

  /** A settled document is passed over, whatever it says was paid; one whose debt is out of range stops the
      payment, and so does one in debt whose paid amount is. */
  lemma SkippedOrStopped(d: Document, rest: seq<Document>, left: int)
    requires left > 0
    ensures d.outstanding == 0 ==> Fifo([d] + rest, left) == Fifo(rest, left)
    ensures (d.outstanding < 0 || d.outstanding > 9007199254740991
             || (d.outstanding >= 1 && !(0 <= d.paid <= 9007199254740991)))
            ==> Fifo([d] + rest, left) == Err(Validation)
  {
    assert ([d] + rest)[1..] == rest;
  }

  lemma {:induction false} FifoErrorIs(docs: seq<Document>, left: int)
    ensures Fifo(docs, left).Err? ==> Fifo(docs, left).error == Validation
  {
    if docs != [] && left > 0 {
      FifoErrorIs(docs[1..], left - Share(left, docs[0].outstanding));
    }
  }

  /** Of documents with one id the last is the one that counts. */
  lemma {:induction false} LastOneCounts(docs: seq<Document>, i: nat)
    requires i < |docs| && forall j :: i < j < |docs| ==> docs[j].id != docs[i].id
    ensures Find(docs, docs[i].id) == Some(docs[i])
  {
    if i < |docs| - 1 {
      LastOneCounts(docs[..|docs| - 1], i);
    }
  }
}
