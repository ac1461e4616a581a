/** The programs that drive the bus: outbox rows changed in place, the relay, the consumer and the redrive
    script. Each is shown to take only steps of the machine in `EventBus`.

    A pass of the relay works on copies of the rows it claimed and saves them at the end; the consumer
    commits its inbox row with the handlers' work and deletes the message afterwards; the redrive script
    sends a copy before it deletes. Parameters say where a process dies. */
module EventRuntime {
  import opened Decimals
  import opened EventBus

  /** An outbox row as the relay holds it: changed in place, then saved. */
  class OutboxRow {
    var row: Row

    constructor (row: Row)
      ensures this.row == row
    {
      this.row := row;
    }

    /** The row is published, and stays in order: it was not parked. */
    method Publish(now: int)
      modifies this
      ensures row.publishedAt == Some(now) && !Pending(row)
      ensures row.kind == old(row.kind) && row.attempts == old(row.attempts) && row.nextAt == old(row.nextAt)
      ensures row.failedAt == old(row.failedAt)
      ensures forall max: nat :: InOrder(old(row), max) && Pending(old(row)) ==> InOrder(row, max)
    {
      row := row.(publishedAt := Some(now));
    }

    /** One failed attempt more: parked at the limit, otherwise tried again within five minutes. */
    method Fail(now: int, maxAttempts: nat)
      modifies this
      ensures row == MarkFailed(old(row), now, maxAttempts)
      ensures row.attempts == old(row.attempts) + 1 && row.kind == old(row.kind)
      ensures row.failedAt == if row.attempts >= maxAttempts then Some(now) else old(row.failedAt)
      ensures row.attempts < maxAttempts ==> now < row.nextAt <= now + MAX_BACKOFF_MS
      ensures InOrder(old(row), maxAttempts) && Pending(old(row)) ==> InOrder(row, maxAttempts)
    {
      row := row.(attempts := row.attempts + 1);
      if row.attempts >= maxAttempts {
        row := row.(failedAt := Some(now));
      } else {
        row := row.(nextAt := now + BackoffMs(row.attempts));
      }
    }
  }

  /** How one publish went: to which queues the event was sent, and whether the publisher succeeded. */
  datatype Try = Try(sent: seq<Service>, ok: bool)

  function Successes(tries: seq<Try>): nat {
    if tries == [] then 0 else Successes(tries[..|tries| - 1]) + (if tries[|tries| - 1].ok then 1 else 0)
  }

  lemma NoSuccesses()
    ensures Successes([]) == 0
  {
  }

  lemma SuccessesStep(tries: seq<Try>, n: nat)
    requires n < |tries|
    ensures Successes(tries[..n + 1]) == Successes(tries[..n]) + if tries[n].ok then 1 else 0
  {
    assert tries[..n + 1][..n] == tries[..n];
  }

  datatype ConsumeResult = Processed | Duplicate | Failed

  /** The service and event of a message, as an inbox row has them. */
  function Ids(b: Bus, m: nat): (Service, EventId)
    requires m in b.messages
  {
    (b.messages[m].service, b.messages[m].event)
  }

  /** How many handlers the message has at its service. */
  function Handlers(c: Config, b: Bus, m: nat): nat
    requires m in b.messages && b.messages[m].event in b.emitted
  {
    c.handlers(b.messages[m].service, b.emitted[b.messages[m].event])
  }

  predicate Distinct(s: seq<EventId>) { forall i, j :: 0 <= i < j < |s| ==> s[i] != s[j] }

  function Members(s: seq<EventId>): set<EventId> { set e | e in s }

  /** The relay, the consumer and the redrive script, driving one bus. */
  class Runtime {
    const c: Config
    var bus: Bus

    ghost predicate Valid()
      reads this
    {
      c.maxAttempts > 0 && Inv(c, bus)
    }

    constructor (c: Config)
      requires c.maxAttempts > 0
      ensures Valid() && this.c == c && bus == START
    {
      this.c, bus := c, START;
      new;
      StartIsFine(c);
    }

    /** `relayOnce`: publishes the claimed rows in turn and saves them in one transaction. When the
        process dies after `survived` publishes, what was sent stays sent and every row is as it was. */
    method RelayOnce(p: nat, claimed: seq<EventId>, tries: seq<Try>, now: int, survived: nat) returns (published: nat)
      requires Valid() && |tries| == |claimed| && Enabled(c, bus, Claim(p, Members(claimed), now))
      requires Distinct(claimed)
      requires forall i :: 0 <= i < |claimed| && tries[i].ok && claimed[i] in bus.outbox ==>
                 forall s :: s in c.subscribers(bus.outbox[claimed[i]].kind) ==> s in tries[i].sent
      modifies this
      ensures Valid() && bus.passes == old(bus.passes)
      ensures bus.inbox == old(bus.inbox) && bus.effects == old(bus.effects) && bus.emitted == old(bus.emitted)
      ensures forall i, s :: 0 <= i < |claimed| && i < survived && s in tries[i].sent ==> OnItsWay(bus, s, claimed[i], 0)
      ensures survived < |claimed| ==> bus.outbox == old(bus.outbox)
      ensures survived >= |claimed| ==> bus.outbox.Keys == old(bus.outbox.Keys) && published == Successes(tries)
      ensures forall i :: 0 <= i < |claimed| <= survived ==>
                bus.outbox[claimed[i]] == Marked(tries[i].ok, old(bus.outbox)[claimed[i]], now, c.maxAttempts)
      ensures forall e :: e in bus.outbox && e !in claimed ==> bus.outbox[e] == old(bus.outbox)[e]
    {
      hide Inv, Marked, Enabled, OnItsWay, Tried, Successes, Members, Distinct;
      ghost var start := bus;
      ClaimIs(c, bus, p, claimed, now);
      var rows := map e | e in claimed :: bus.outbox[e];
      bus := bus.(passes := bus.passes[p := Pass(rows, Members(claimed))]);
      TriedAt(rows, claimed, tries, now, c.maxAttempts);
      published := PublishAll(p, claimed, tries, now, survived, rows);
      if survived < |claimed| {
        CrashIs(c, bus, p);
        bus := bus.(passes := bus.passes - {p});
        return;
      }
      SaveIs(c, bus, p);
      bus := bus.(outbox := bus.outbox + bus.passes[p].rows, passes := bus.passes - {p});
    }

    /** The loop of a pass, up to the row at which the process dies. */
    method PublishAll(p: nat, claimed: seq<EventId>, tries: seq<Try>, now: int, survived: nat, ghost rows: map<EventId, Row>)
      returns (published: nat)
      requires Valid() && |tries| == |claimed| && Distinct(claimed) && rows.Keys == Members(claimed)
      requires p in bus.passes && bus.passes[p] == Pass(rows, Members(claimed))
      requires forall i :: 0 <= i < |claimed| && tries[i].ok && claimed[i] in rows ==>
                 forall s :: s in c.subscribers(rows[claimed[i]].kind) ==> s in tries[i].sent
      modifies this
      ensures Valid() && p in bus.passes && bus.passes - {p} == old(bus.passes) - {p}
      ensures bus.outbox == old(bus.outbox) && bus.inbox == old(bus.inbox) && bus.effects == old(bus.effects)
              && bus.emitted == old(bus.emitted)
      ensures forall i, s :: 0 <= i < |claimed| && i < survived && s in tries[i].sent ==> OnItsWay(bus, s, claimed[i], 0)
      ensures survived >= |claimed| ==>
                && published == Successes(tries)
                && bus.passes[p] == Pass(Tried(rows, claimed, tries, now, c.maxAttempts, |claimed|), {})
    {
      hide Inv, Marked, OnItsWay, Tried, Successes, Members, Distinct;
      NoSuccesses();
      published := 0;
      TriedAt(rows, claimed, tries, now, c.maxAttempts);
      for n := 0 to |claimed|
        invariant survived >= n && published == Successes(tries[..n])
        invariant Valid() && p in bus.passes && bus.passes - {p} == old(bus.passes) - {p}
        invariant bus.outbox == old(bus.outbox) && bus.inbox == old(bus.inbox) && bus.effects == old(bus.effects)
                  && bus.emitted == old(bus.emitted)
        invariant bus.passes[p] == Pass(Tried(rows, claimed, tries, now, c.maxAttempts, n), Members(claimed[n..]))
        invariant forall i, s :: 0 <= i < n && s in tries[i].sent ==> OnItsWay(bus, s, claimed[i], 0)
      {
        if survived == n {
          return;
        }
        TriedStep(rows, claimed, tries, now, c.maxAttempts, n);
        PublishRow(p, claimed[n], tries[n], now);
        SuccessesStep(tries, n);
        published := published + if tries[n].ok then 1 else 0;
      }
      assert tries[..|claimed|] == tries;
    }

    /** One row of a pass: the publish, then the mark on the working copy. */
    method PublishRow(p: nat, e: EventId, attempt: Try, now: int)
      requires Valid() && p in bus.passes && e in bus.passes[p].todo && e in bus.passes[p].rows
      requires attempt.ok ==> forall s :: s in c.subscribers(bus.passes[p].rows[e].kind) ==> s in attempt.sent
      modifies this
      ensures Valid() && bus.outbox == old(bus.outbox)
      ensures bus.inbox == old(bus.inbox) && bus.effects == old(bus.effects) && bus.emitted == old(bus.emitted)
      ensures bus.passes.Keys == old(bus.passes.Keys) && bus.passes - {p} == old(bus.passes) - {p}
      ensures bus.passes[p].todo == old(bus.passes)[p].todo - {e}
      ensures bus.passes[p].rows
              == old(bus.passes)[p].rows[e := Marked(attempt.ok, old(bus.passes)[p].rows[e], now, c.maxAttempts)]
      ensures forall s :: s in attempt.sent ==> OnItsWay(bus, s, e, 0)
      ensures forall s, x :: OnItsWay(old(bus), s, x, 0) ==> OnItsWay(bus, s, x, 0)
    {
      hide Inv, MarkFailed, SendAll, OnItsWay, InOrder;
      var row := new OutboxRow(bus.passes[p].rows[e]);
      if attempt.ok {
        row.Publish(now);
      } else {
        row.Fail(now, c.maxAttempts);
      }
      PublishIs(c, bus, p, e, attempt.sent, attempt.ok, now);
      var pass := bus.passes[p];
      bus := SendAll(bus, attempt.sent, e).(passes := bus.passes[p := Pass(pass.rows[e := row.row], pass.todo - {e})]);
    }

    /** `handleBody`: the inbox row and the handlers in one transaction, which the handlers may fail. */
    method HandleBody(m: nat, ok: bool) returns (result: ConsumeResult)
      requires Valid() && Enabled(c, bus, Handle(m, ok))
      modifies this
      ensures Valid() && bus == Next(c, old(bus), Handle(m, ok))
      ensures result.Duplicate? ==> bus.effects == old(bus.effects) && bus.inbox == old(bus.inbox)
      ensures result.Failed? ==> bus == old(bus)
      ensures result.Failed? <==> !ok && Handlers(c, old(bus), m) > 0
      ensures result.Duplicate? <==> ok && Handlers(c, old(bus), m) > 0 && Ids(old(bus), m) in old(bus.inbox)
      ensures !result.Failed? ==> m in bus.handled && (Handlers(c, old(bus), m) > 0 ==> Ids(old(bus), m) in bus.inbox)
    {
      hide Inv;
      StepKeeps(c, bus, Handle(m, ok));
      var s, e := bus.messages[m].service, bus.messages[m].event;
      var n := c.handlers(s, bus.emitted[e]);
      if n == 0 {
        bus := bus.(handled := bus.handled + {m});
        return Processed;
      }
      if (s, e) in bus.inbox {
        if !ok {
          return Failed;
        }
        bus := bus.(handled := bus.handled + {m});
        return Duplicate;
      }
      var working := bus.(inbox := bus.inbox + {(s, e)});
      var h := 0;
      while h < n
        invariant 0 <= h <= n
        invariant working == bus.(inbox := bus.inbox + {(s, e)}, effects := bus.effects + Work(s, e, n)[..h])
      {
        assert Work(s, e, n)[..h + 1] == Work(s, e, n)[..h] + [Effect(s, e, h)];
        working := working.(effects := working.effects + [Effect(s, e, h)]);
        h := h + 1;
      }
      assert Work(s, e, n)[..n] == Work(s, e, n);
      if !ok {
        return Failed;
      }
      bus := working.(handled := working.handled + {m});
      return Processed;
    }

    /** `process`: the message is deleted only after its transaction committed; `dies` cuts in between. */
    method Process(m: nat, ok: bool, dies: bool)
      requires Valid() && Enabled(c, bus, Handle(m, ok))
      modifies this
      ensures Valid()
      ensures !ok && Handlers(c, old(bus), m) > 0 ==> bus == old(bus)
      ensures ok || Handlers(c, old(bus), m) == 0 ==>
                && m in bus.handled && bus.messages == (if dies then old(bus.messages) else old(bus.messages) - {m})
                && (Handlers(c, old(bus), m) > 0 ==> Ids(old(bus), m) in bus.inbox)
                && bus == Next(c, old(bus), Handle(m, ok)).(messages := bus.messages)
    {
      var result := HandleBody(m, ok);
      if result.Failed? || dies {
        return;
      }
      RemovalKeeps(c, bus, m);
      bus := bus.(messages := bus.messages - {m});
    }

    /** `redrive`: for each message received from the dead-letter queue, sends a copy first and deletes
        after; `survived` operations happen before the script dies. */
    method Redrive(received: seq<nat>, max: nat, survived: nat) returns (moved: nat)
      requires Valid()
      modifies this
      ensures Valid() && moved <= max && moved <= |received|
      ensures bus.emitted == old(bus.emitted) && bus.outbox == old(bus.outbox) && bus.inbox == old(bus.inbox)
              && bus.effects == old(bus.effects)
      ensures forall s, e :: e in bus.emitted && c.handlers(s, bus.emitted[e]) > 0 && Reached(old(bus), s, e, 0)
                             ==> Reached(bus, s, e, 0)
      ensures moved == |Gone(old(bus), bus)| && Redriven(old(bus), bus, received)
      ensures max >= |received| && survived >= 2 * |received| ==>
                forall m :: m in received && m in old(bus.messages) && old(bus.messages)[m].dead ==> m !in bus.messages
    {
      hide Inv, Enabled, SendAll, Reached, Redriven, Gone;
      moved := 0;
      var operations := 0;
      NothingGone(c, bus, received);
      for i := 0 to |received|
        invariant Valid() && moved <= i && moved <= max && operations == 2 * moved
        invariant bus.emitted == old(bus.emitted) && bus.outbox == old(bus.outbox) && bus.inbox == old(bus.inbox)
                  && bus.effects == old(bus.effects)
        invariant forall s, e :: e in bus.emitted && c.handlers(s, bus.emitted[e]) > 0 && Reached(old(bus), s, e, 0)
                                 ==> Reached(bus, s, e, 0)
        invariant moved == |Gone(old(bus), bus)| && Redriven(old(bus), bus, received)
        invariant forall k :: 0 <= k < i && received[k] in old(bus.messages) && old(bus.messages)[received[k]].dead
                              ==> received[k] !in bus.messages
      {
        var m := received[i];
        if m in bus.messages && bus.messages[m].dead {
          if moved == max || operations >= survived {
            return;
          }
          ghost var before := bus;
          ResendIsLater(c, bus, m);
          bus := SendAll(bus, [bus.messages[m].service], bus.messages[m].event).(resent := bus.resent + {m});
          SentBack(old(bus), before, bus, received, m);
          operations := operations + 1;
          if operations >= survived {
            return;
          }
          DropIsLater(c, bus, m);
          Dropped(old(bus), bus, received, m);
          bus := bus.(messages := bus.messages - {m});
          operations, moved := operations + 1, moved + 1;
        } else {
          LeftAlone(old(bus), bus, received, m);
        }
      }
    }
  }

  function Gone(b: Bus, b': Bus): set<nat> { set m | m in b.messages && m !in b'.messages }

  /** A live message for this service and event, numbered from `from` on. */
  ghost predicate Requeued(b: Bus, s: Service, e: EventId, from: nat) {
    exists m :: m >= from && m in b.messages && b.messages[m] == Message(s, e, false)
  }

  /** Only dead messages that were received are gone, each with a live copy in its service's queue; every
      other message is as it was, and whatever is new is live. */
  ghost predicate Redriven(b: Bus, b': Bus, received: seq<nat>) {
    && b.nextMessage <= b'.nextMessage
    && (forall m :: m in b.messages ==> m < b.nextMessage)
    && (forall m :: m in b'.messages && m in b.messages ==> b'.messages[m] == b.messages[m])
    && (forall m :: m in b'.messages && m !in b.messages ==> m >= b.nextMessage && !b'.messages[m].dead)
    && (forall m :: m in b.messages && m !in b'.messages ==>
          m in received && b.messages[m].dead && Requeued(b', b.messages[m].service, b.messages[m].event, b.nextMessage))
  }

  lemma NothingGone(c: Config, b: Bus, received: seq<nat>)
    requires Inv(c, b)
    ensures |Gone(b, b)| == 0 && Redriven(b, b, received)
  {
    assert Gone(b, b) == {};
  }

  /** A copy more changes nothing else. */
  lemma SentBack(b: Bus, mid: Bus, b': Bus, received: seq<nat>, m: nat)
    requires Redriven(b, mid, received) && m in mid.messages && mid.messages[m].dead && mid.nextMessage !in mid.messages
    requires b'.nextMessage == mid.nextMessage + 1
    requires b'.messages == mid.messages[mid.nextMessage := Message(mid.messages[m].service, mid.messages[m].event, false)]
    ensures Redriven(b, b', received) && Gone(b, b') == Gone(b, mid)
    ensures m in b.messages && Requeued(b', mid.messages[m].service, mid.messages[m].event, b.nextMessage)
  {
    assert b'.messages[mid.nextMessage] == Message(mid.messages[m].service, mid.messages[m].event, false);
    forall x | x in b.messages && x !in b'.messages
      ensures Requeued(b', b.messages[x].service, b.messages[x].event, b.nextMessage)
    {
      var s, e := b.messages[x].service, b.messages[x].event;
      var k :| k >= b.nextMessage && k in mid.messages && mid.messages[k] == Message(s, e, false);
      assert b'.messages[k] == Message(s, e, false);
    }
  }

  lemma Dropped(b: Bus, mid: Bus, received: seq<nat>, m: nat)
    requires Redriven(b, mid, received) && m in mid.messages && m in b.messages && mid.messages[m].dead && m in received
    requires Requeued(mid, mid.messages[m].service, mid.messages[m].event, b.nextMessage)
    ensures var b' := mid.(messages := mid.messages - {m});
            Redriven(b, b', received) && |Gone(b, b')| == |Gone(b, mid)| + 1
  {
    var b' := mid.(messages := mid.messages - {m});
    assert Gone(b, b') == Gone(b, mid) + {m};
    forall x | x in b.messages && x !in b'.messages
      ensures Requeued(b', b.messages[x].service, b.messages[x].event, b.nextMessage)
    {
      var s, e := b.messages[x].service, b.messages[x].event;
      var k :| k >= b.nextMessage && k in mid.messages && mid.messages[k] == Message(s, e, false);
      assert k in b'.messages;
    }
  }

  lemma LeftAlone(b: Bus, b': Bus, received: seq<nat>, m: nat)
    requires Redriven(b, b', received) && !(m in b'.messages && b'.messages[m].dead)
    ensures m in b.messages && b.messages[m].dead ==> m !in b'.messages
  {
  }

  lemma ResendIsLater(c: Config, b: Bus, m: nat)
    requires c.maxAttempts > 0 && Inv(c, b) && m in b.messages && b.messages[m].dead
    ensures var b' := SendAll(b, [b.messages[m].service], b.messages[m].event).(resent := b.resent + {m});
            && Inv(c, b') && Later(c, b, b') && m in b'.messages && m in b'.resent
            && b'.emitted == b.emitted && b'.outbox == b.outbox && b'.inbox == b.inbox && b'.effects == b.effects
            && b.nextMessage !in b.messages && b'.nextMessage == b.nextMessage + 1
            && b'.messages == b.messages[b.nextMessage := Message(b.messages[m].service, b.messages[m].event, false)]
  {
    hide Reached, OutboxOk, PassesOk, EffectsOk;
    assert [b.messages[m].service][..0] == [];
    assert SendAll(b, [], b.messages[m].event) == b;
    ResendKeeps(c, b, m);
    SendAllAdds(b, [b.messages[m].service], b.messages[m].event);
    MoreMessages(c, b, SendAll(b, [b.messages[m].service], b.messages[m].event).(resent := b.resent + {m}));
  }

  lemma DropIsLater(c: Config, b: Bus, m: nat)
    requires Inv(c, b) && m in b.messages && m in b.resent
    ensures Inv(c, b.(messages := b.messages - {m})) && Later(c, b, b.(messages := b.messages - {m}))
  {
    hide Reached, OutboxOk, PassesOk, EffectsOk;
    RemovalIsLater(c, b, m);
    RemovalKeeps(c, b, m);
  }

  function Marked(ok: bool, row: Row, now: int, maxAttempts: nat): Row {
    if ok then MarkPublished(row, now) else MarkFailed(row, now, maxAttempts)
  }

  /** The working copies after `n` publishes. */
  function Tried(rows: map<EventId, Row>, claimed: seq<EventId>, tries: seq<Try>, now: int, maxAttempts: nat, n: nat)
    : (r: map<EventId, Row>)
    requires |tries| == |claimed| && n <= |claimed| && rows.Keys == Members(claimed)
    ensures r.Keys == rows.Keys
  {
    if n == 0 then rows else
      var before, e := Tried(rows, claimed, tries, now, maxAttempts, n - 1), claimed[n - 1];
      assert e in claimed;
      before[e := Marked(tries[n - 1].ok, before[e], now, maxAttempts)]
  }

  lemma DistinctAt(s: seq<EventId>, i: nat, j: nat)
    requires Distinct(s) && i < |s| && j < |s| && i != j
    ensures s[i] != s[j]
  {
  }

  lemma {:induction false} TriedBoth(rows: map<EventId, Row>, claimed: seq<EventId>, tries: seq<Try>, now: int,
                                     maxAttempts: nat, n: nat, i: nat)
    requires |tries| == |claimed| && n <= |claimed| && rows.Keys == Members(claimed) && i < |claimed|
    requires Distinct(claimed)
    ensures Tried(rows, claimed, tries, now, maxAttempts, n)[claimed[i]]
            == if i < n then Marked(tries[i].ok, rows[claimed[i]], now, maxAttempts) else rows[claimed[i]]
  {
    hide Marked, Distinct;
    assert claimed[i] in claimed;
    if n > 0 {
      if i != n - 1 {
        DistinctAt(claimed, i, n - 1);
      }
      TriedBoth(rows, claimed, tries, now, maxAttempts, n - 1, i);
    }
  }

  lemma TriedAt(rows: map<EventId, Row>, claimed: seq<EventId>, tries: seq<Try>, now: int, maxAttempts: nat)
    requires |tries| == |claimed| && rows.Keys == Members(claimed)
    requires Distinct(claimed)
    ensures Tried(rows, claimed, tries, now, maxAttempts, 0) == rows && claimed[0..] == claimed && Members(claimed[|claimed|..]) == {}
    ensures forall i :: 0 <= i < |claimed| ==> claimed[i] in rows
    ensures forall i :: 0 <= i < |claimed| ==>
              Tried(rows, claimed, tries, now, maxAttempts, |claimed|)[claimed[i]]
              == Marked(tries[i].ok, rows[claimed[i]], now, maxAttempts)
  {
    hide Marked;
    forall i | 0 <= i < |claimed|
      ensures claimed[i] in rows
      ensures Tried(rows, claimed, tries, now, maxAttempts, |claimed|)[claimed[i]]
              == Marked(tries[i].ok, rows[claimed[i]], now, maxAttempts)
    {
      assert claimed[i] in claimed;
      TriedBoth(rows, claimed, tries, now, maxAttempts, |claimed|, i);
    }
  }

  lemma TriedStep(rows: map<EventId, Row>, claimed: seq<EventId>, tries: seq<Try>, now: int, maxAttempts: nat, n: nat)
    requires |tries| == |claimed| && n < |claimed| && rows.Keys == Members(claimed)
    requires Distinct(claimed)
    ensures var before, e := Tried(rows, claimed, tries, now, maxAttempts, n), claimed[n];
            && e in before && before[e] == rows[e] && e in Members(claimed[n..])
            && Members(claimed[n..]) - {e} == Members(claimed[n + 1..])
            && Tried(rows, claimed, tries, now, maxAttempts, n + 1) == before[e := Marked(tries[n].ok, before[e], now, maxAttempts)]
  {
    assert claimed[n] in rows by {
      assert claimed[n] in claimed;
    }
    MembersStep(claimed, n);
    TriedBoth(rows, claimed, tries, now, maxAttempts, n, n);
    hide Marked, Members, Distinct;
  }

  lemma MembersStep(claimed: seq<EventId>, n: nat)
    requires Distinct(claimed) && n < |claimed|
    ensures claimed[n] in Members(claimed[n..]) && Members(claimed[n..]) - {claimed[n]} == Members(claimed[n + 1..])
  {
    assert claimed[n..] == [claimed[n]] + claimed[n + 1..];
  }

  // The relay's updates are the steps of the machine.

  lemma ClaimIs(c: Config, b: Bus, p: nat, claimed: seq<EventId>, now: int)
    requires Inv(c, b) && Enabled(c, b, Claim(p, Members(claimed), now))
    ensures p !in b.passes && forall e :: e in claimed ==> e in b.outbox
    ensures (map e | e in claimed :: b.outbox[e]).Keys == Members(claimed)
    ensures Inv(c, b.(passes := b.passes[p := Pass(map e | e in claimed :: b.outbox[e], Members(claimed))]))
  {
    hide Inv;
    ClaimKeeps(c, b, p, Members(claimed), now);
    assert forall e :: e in claimed ==> e in Members(claimed);
    assert (map e | e in claimed :: b.outbox[e]) == (map e | e in Members(claimed) :: b.outbox[e]);
  }

  lemma PublishIs(c: Config, b: Bus, p: nat, e: EventId, sent: seq<Service>, ok: bool, now: int)
    requires Inv(c, b) && p in b.passes && e in b.passes[p].todo && e in b.passes[p].rows
    requires ok ==> forall s :: s in c.subscribers(b.passes[p].rows[e].kind) ==> s in sent
    ensures var pass := b.passes[p];
            var b' := SendAll(b, sent, e).(passes := b.passes[p := Pass(
                        pass.rows[e := Marked(ok, pass.rows[e], now, c.maxAttempts)], pass.todo - {e})]);
            && Inv(c, b') && b'.outbox == b.outbox && b'.inbox == b.inbox && b'.effects == b.effects && b'.emitted == b.emitted
            && (forall s :: s in sent ==> OnItsWay(b', s, e, 0))
            && (forall s, x :: OnItsWay(b, s, x, 0) ==> OnItsWay(b', s, x, 0))
  {
    hide OutboxOk, PassesOk, EffectsOk, SendAll, MarkFailed;
    PublishKeeps(c, b, p, e, sent, ok, now);
    SendAllAdds(b, sent, e);
    var d := SendAll(b, sent, e);
    var pass := b.passes[p];
    var b' := d.(passes := b.passes[p := Pass(pass.rows[e := Marked(ok, pass.rows[e], now, c.maxAttempts)], pass.todo - {e})]);
    forall s | s in sent
      ensures OnItsWay(b', s, e, 0)
    {
      var m :| m >= b.nextMessage && m in d.messages && d.messages[m].service == s && d.messages[m].event == e;
      assert m in b'.messages;
    }
    forall s, x | OnItsWay(b, s, x, 0)
      ensures OnItsWay(b', s, x, 0)
    {
      var m :| m in b.messages && b.messages[m].service == s && b.messages[m].event == x;
      assert m in b'.messages;
    }
  }

  lemma CrashIs(c: Config, b: Bus, p: nat)
    requires Inv(c, b) && p in b.passes
    ensures Inv(c, b.(passes := b.passes - {p}))
    ensures forall s, x :: OnItsWay(b, s, x, 0) ==> OnItsWay(b.(passes := b.passes - {p}), s, x, 0)
  {
    hide Inv;
    EndOfPassKeeps(c, b, p);
  }

  lemma SaveIs(c: Config, b: Bus, p: nat)
    requires Inv(c, b) && p in b.passes && b.passes[p].todo == {}
    ensures Inv(c, b.(outbox := b.outbox + b.passes[p].rows, passes := b.passes - {p}))
    ensures forall s, x :: OnItsWay(b, s, x, 0)
              ==> OnItsWay(b.(outbox := b.outbox + b.passes[p].rows, passes := b.passes - {p}), s, x, 0)
  {
    hide Inv;
    EndOfPassKeeps(c, b, p);
  }
}
