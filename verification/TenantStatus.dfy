/** The row that mirrors a store's status and plan from platform events, by two guarded upserts; each
    looks only at the time of its own column. */
module TenantStatus {
  import opened Decimals

  const EPOCH := 0

  datatype Kind = Status | Plan

  /** A column with the time it was last changed; a plan may be null, a status never is. */
  datatype Cell = Cell(value: Option<string>, at: int)

  datatype Row = Row(status: Cell, plan: Cell)

  datatype Event = Event(kind: Kind, value: Option<string>, at: int)

  function Get(row: Row, k: Kind): Cell { if k.Status? then row.status else row.plan }

  /** What an insert by the other kind of event puts in the column. */
  function Initial(k: Kind): Cell { if k.Status? then Cell(Some("active"), EPOCH) else Cell(None, EPOCH) }

  /** One upsert: insert the row, or update the event's own column unless that is newer. */
  function Applied(row: Option<Row>, e: Event): Row {
    var cell := Cell(e.value, e.at);
    match row
    case None => if e.kind.Status? then Row(cell, Initial(Plan)) else Row(Initial(Status), cell)
    case Some(r) =>
      if e.at < Get(r, e.kind).at then r
      else if e.kind.Status? then r.(status := cell) else r.(plan := cell)
  }

  class Handler {
    var table: map<string, Row>

    constructor ()
      ensures table == map[]
    {
      table := map[];
    }

    function RowOf(tenant: string): Option<Row>
      reads this
    {
      if tenant in table then Some(table[tenant]) else None
    }

    method OnStatusChanged(tenant: string, to: string, at: int)
      modifies this
      ensures table == old(table)[tenant := Applied(old(RowOf(tenant)), Event(Status, Some(to), at))]
    {
      if tenant !in table {
        table := table[tenant := Row(Cell(Some(to), at), Cell(None, EPOCH))];
      } else if table[tenant].status.at <= at {
        table := table[tenant := table[tenant].(status := Cell(Some(to), at))];
      }
    }

    method OnSubscriptionChanged(tenant: string, toPlan: Option<string>, at: int)
      modifies this
      ensures table == old(table)[tenant := Applied(old(RowOf(tenant)), Event(Plan, toPlan, at))]
    {
      if tenant !in table {
        table := table[tenant := Row(Cell(Some("active"), EPOCH), Cell(toPlan, at))];
      } else if table[tenant].plan.at <= at {
        table := table[tenant := table[tenant].(plan := Cell(toPlan, at))];
      }
    }
  }

  // ---- deliveries

  /** The row of one tenant after its events were delivered in this order. */
  function Delivered(d: seq<Event>): Option<Row> {
    if d == [] then None else Some(Applied(Delivered(d[..|d| - 1]), d[|d| - 1]))
  }

  function After(d: seq<Event>, k: Kind): Cell
    requires d != []
  {
    Get(Delivered(d).value, k)
  }

  /** Any order, with any redeliveries, of the events of a set. */
  ghost predicate Delivers(d: seq<Event>, events: set<Event>) {
    forall e :: e in d <==> e in events
  }

  /** Is this an event of the kind with the latest time? */
  ghost predicate Latest(events: set<Event>, k: Kind, e: Event) {
    e in events && e.kind == k && forall x :: x in events && x.kind == k ==> x.at <= e.at
  }

  ghost predicate Has(events: set<Event>, k: Kind) { exists e :: e in events && e.kind == k }

  /** The latest events of the kind agree on the value, and if the other kind may come first they are
      not before the epoch. */
  ghost predicate Settled(events: set<Event>, k: Kind) {
    && (forall a, b :: Latest(events, k, a) && Latest(events, k, b) ==> a.value == b.value)
    && (Has(events, OtherKind(k)) ==> forall a :: Latest(events, k, a) ==> a.at >= EPOCH)
  }

  function OtherKind(k: Kind): Kind { if k.Status? then Plan else Status }

  /** What a column holds after a delivery: a delivered event's value, no older than any delivered
      event; or its initial value, if the other kind came first and all of its own are older still. */
  ghost predicate Explained(d: seq<Event>, k: Kind, c: Cell)
    requires d != []
  {
    && (forall e :: e in d && e.kind == k ==> e.at <= c.at)
    && (|| Event(k, c.value, c.at) in d
        || (c == Initial(k) && d[0].kind != k && forall e :: e in d && e.kind == k ==> e.at < EPOCH))
  }

  lemma {:induction false} EveryCellIsExplained(d: seq<Event>, k: Kind)
    requires d != []
    ensures Explained(d, k, After(d, k))
  {
    var before, e := d[..|d| - 1], d[|d| - 1];
    assert d == before + [e] && e == Event(e.kind, e.value, e.at);
    if before == [] {
      assert d == [e] && Delivered(d) == Some(Applied(None, e));
    } else {
      assert d[0] == before[0] && Delivered(d) == Some(Applied(Delivered(before), e));
      EveryCellIsExplained(before, k);
    }
  }

  lemma {:induction false} LatestExists(events: set<Event>, k: Kind) returns (e: Event)
    requires Has(events, k)
    ensures Latest(events, k, e)
    decreases events
  {
    e :| e in events && e.kind == k;
    var rest := events - {e};
    if Has(rest, k) {
      var f := LatestExists(rest, k);
      if f.at >= e.at {
        e := f;
      }
    }
  }

  /** Settled events of a kind leave one and the same column, however they are delivered. */
  lemma SettledCell(events: set<Event>, k: Kind, d: seq<Event>, e: Event)
    requires d != [] && Delivers(d, events) && Settled(events, k)
    ensures Latest(events, k, e) ==> After(d, k) == Cell(e.value, e.at)
    ensures !Has(events, k) ==> After(d, k) == Initial(k)
  {
    hide After;
    EveryCellIsExplained(d, k);
    var c := After(d, k);
    if Latest(events, k, e) {
      assert d[0] in events;
      assert d[0].kind != k ==> Has(events, OtherKind(k));
      assert Event(k, c.value, c.at) in d ==> Latest(events, k, Event(k, c.value, c.at));
    }
  }

  lemma SettledConverges(events: set<Event>, d1: seq<Event>, d2: seq<Event>)
    requires d1 != [] && Delivers(d1, events) && Delivers(d2, events)
    requires Settled(events, Status) && Settled(events, Plan)
    ensures Delivered(d1) == Delivered(d2)
  {
    assert d1[0] in d2;
    SameCell(events, Status, d1, d2);
    SameCell(events, Plan, d1, d2);
  }

  lemma SameCell(events: set<Event>, k: Kind, d1: seq<Event>, d2: seq<Event>)
    requires d1 != [] && d2 != [] && Delivers(d1, events) && Delivers(d2, events) && Settled(events, k)
    ensures After(d1, k) == After(d2, k)
  {
    hide After, Settled;
    if Has(events, k) {
      var e := LatestExists(events, k);
      SettledCell(events, k, d1, e);
      SettledCell(events, k, d2, e);
    } else {
      SettledCell(events, k, d1, d1[0]);
      SettledCell(events, k, d2, d1[0]);
    }
  }

  // ---- and otherwise two deliveries differ

  lemma {:induction false} SomeOrder(events: set<Event>) returns (d: seq<Event>)
    ensures Delivers(d, events)
    decreases events
  {
    d := [];
    if events != {} {
      var e :| e in events;
      d := SomeOrder(events - {e});
      d := d + [e];
    }
  }

  /** Both kinds, one of them only before the epoch: which kind comes first is visible for ever. */
  lemma FirstKindShows(events: set<Event>, k: Kind, own: Event, other: Event, d: seq<Event>)
    requires Delivers(d, events)
    requires own in events && own.kind == k && other in events && other.kind != k
    requires forall e :: e in events && e.kind == k ==> e.at < EPOCH
    ensures Delivers([own] + d, events) && Delivers([other] + d, events)
    ensures Delivered([own] + d) != Delivered([other] + d)
  {
    hide After;
    EveryCellIsExplained([own] + d, k);
    assert After([own] + d, k).at < EPOCH;
    StaysInitial([other] + d, k);
    assert After([own] + d, k) != After([other] + d, k);
    DifferentCells([own] + d, [other] + d, k);
  }

  lemma DifferentCells(d1: seq<Event>, d2: seq<Event>, k: Kind)
    requires d1 != [] && d2 != [] && After(d1, k) != After(d2, k)
    ensures Delivered(d1) != Delivered(d2)
  {
  }

  lemma {:induction false} StaysInitial(d: seq<Event>, k: Kind)
    requires d != [] && d[0].kind != k && forall e :: e in d && e.kind == k ==> e.at < EPOCH
    ensures After(d, k) == Initial(k)
  {
    var before, e := d[..|d| - 1], d[|d| - 1];
    assert d == before + [e] && e == Event(e.kind, e.value, e.at);
    if before == [] {
      assert d == [e] && Delivered(d) == Some(Applied(None, e));
    } else {
      assert d[0] == before[0] && Delivered(d) == Some(Applied(Delivered(before), e));
      StaysInitial(before, k);
    }
  }

  /** Two latest events that disagree: the last one delivered wins. */
  lemma LastOneWins(events: set<Event>, k: Kind, a: Event, b: Event, d: seq<Event>)
    requires Delivers(d, events) && Latest(events, k, a) && Latest(events, k, b) && a.value != b.value
    requires Has(events, OtherKind(k)) ==> a.at >= EPOCH
    ensures Delivers(d + [a], events) && Delivers(d + [b], events)
    ensures Delivered(d + [a]) != Delivered(d + [b])
  {
    assert a in d;
    EveryCellIsExplained(d, k);
    assert After(d, k).at <= a.at by {
      assert d[0] in events;
      var c := After(d, k);
      if Event(k, c.value, c.at) in d {
        assert Event(k, c.value, c.at) in events;
      }
    }
    assert (d + [a])[..|d|] == d && (d + [b])[..|d|] == d;
    assert After(d + [a], k).value == a.value && After(d + [b], k).value == b.value;
  }

  lemma UnsettledDiverges(events: set<Event>, k: Kind) returns (d1: seq<Event>, d2: seq<Event>)
    requires !Settled(events, k)
    ensures Delivers(d1, events) && Delivers(d2, events) && Delivered(d1) != Delivered(d2)
  {
    hide Delivered;
    var d := SomeOrder(events);
    if Has(events, OtherKind(k)) && exists a :: Latest(events, k, a) && a.at < EPOCH {
      var own :| Latest(events, k, own) && own.at < EPOCH;
      var other :| other in events && other.kind == OtherKind(k);
      FirstKindShows(events, k, own, other, d);
      d1, d2 := [own] + d, [other] + d;
    } else {
      var a, b :| Latest(events, k, a) && Latest(events, k, b) && a.value != b.value;
      LastOneWins(events, k, a, b, d);
      d1, d2 := d + [a], d + [b];
    }
  }

  /** Do all deliveries of the events, in any order and with any redeliveries, end in one row? */
  ghost predicate Converges(events: set<Event>) {
    forall d1, d2 :: Delivers(d1, events) && Delivers(d2, events) ==> Delivered(d1) == Delivered(d2)
  }

  /** The row converges exactly when, for each kind, the latest events agree, and are not before the
      epoch if events of the other kind can come first. */
  lemma ConvergesIff(events: set<Event>)
    ensures Converges(events) <==> Settled(events, Status) && Settled(events, Plan)
  {
    hide Delivered, Settled;
    if Settled(events, Status) && Settled(events, Plan) {
      forall d1, d2 | Delivers(d1, events) && Delivers(d2, events)
        ensures Delivered(d1) == Delivered(d2)
      {
        if d1 != [] {
          SettledConverges(events, d1, d2);
        } else if d2 != [] {
          SettledConverges(events, d2, d1);
        }
      }
    } else {
      var k := if !Settled(events, Status) then Status else Plan;
      var d1, d2 := UnsettledDiverges(events, k);
    }
  }

  /** What is promised: with different times within each kind, none before the epoch, every delivery
      ends with the latest status, or `active` if there is none, and the latest plan, or null. */
  lemma DistinctTimesConverge(events: set<Event>, d: seq<Event>, k: Kind, e: Event)
    requires d != [] && Delivers(d, events)
    requires forall a, b :: a in events && b in events && a.kind == b.kind && a != b ==> a.at != b.at
    requires forall a :: a in events ==> a.at >= EPOCH
    ensures Converges(events)
    ensures Latest(events, k, e) ==> After(d, k) == Cell(e.value, e.at)
    ensures !Has(events, k) ==> After(d, k) == Initial(k)
  {
    assert forall j :: Settled(events, j);
    ConvergesIff(events);
    SettledCell(events, k, d, e);
  }

  /** A store of which only plans are known is active, and one of which only statuses are known has no
      plan. */
  lemma {:induction false} DefaultsAre(d: seq<Event>, k: Kind)
    requires d != [] && forall e :: e in d ==> e.kind != k
    ensures After(d, k) == match k case Status => Cell(Some("active"), 0) case Plan => Cell(None, 0)
  {
    var before, e := d[..|d| - 1], d[|d| - 1];
    assert e in d && forall x :: x in before ==> x in d;
    assert Delivered(d) == Some(Applied(Delivered(before), e));
    if before == [] {
      assert Delivered(before) == None;
    } else {
      DefaultsAre(before, k);
    }
  }
}
