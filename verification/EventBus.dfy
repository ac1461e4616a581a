/** Event delivery: outbox, relay, queues, inbox, dead-letter queues and redrive, as one state machine. */
module EventBus {
  // Each step is what one transaction or one call to the queue service does at once; a crash is simply
  // the steps that do not follow. Assumed of the platform: transactions are atomic, rows claimed
  // `FOR UPDATE SKIP LOCKED` are claimed by one pass only, and queues keep a message until it is
  // deleted or moved.
  import opened Decimals

  type Service = string
  type EventId = string

  /** Who subscribes to a type, how many handlers a service registered for it, and the retry limit. */
  datatype Config = Config(subscribers: string -> set<Service>, handlers: (Service, string) -> nat, maxAttempts: nat)

  datatype Row = Row(kind: string, attempts: nat, nextAt: int, publishedAt: Option<int>, failedAt: Option<int>)

  /** A relay pass: its working copies of the rows it locked, and those it has not tried yet. */
  datatype Pass = Pass(rows: map<EventId, Row>, todo: set<EventId>)

  /** A message on a service's queue, or dead in its dead-letter queue. */
  datatype Message = Message(service: Service, event: EventId, dead: bool)

  /** One handler's committed work on one event. */
  datatype Effect = Effect(service: Service, event: EventId, handler: nat)

  /** `emitted` remembers every event whose state change committed; `handled` the messages whose
      processing succeeded and may be deleted; `resent` the dead messages already sent back. */
  datatype Bus = Bus(emitted: map<EventId, string>, outbox: map<EventId, Row>, passes: map<nat, Pass>,
                     messages: map<nat, Message>, nextMessage: nat, handled: set<nat>, resent: set<nat>,
                     inbox: set<(Service, EventId)>, effects: seq<Effect>)

  const START := Bus(map[], map[], map[], map[], 0, {}, {}, {}, [])

  // ---- retry bookkeeping

  const MAX_BACKOFF_MS := 300000

  function Pow2(n: nat): (p: nat)
    ensures p > 0
  {
    if n == 0 then 1 else 2 * Pow2(n - 1)
  }

  function BackoffMs(attempts: nat): nat {
    var ms := Pow2(attempts) * 1000;
    if ms <= MAX_BACKOFF_MS then ms else MAX_BACKOFF_MS
  }

  function MarkPublished(row: Row, now: int): Row { row.(publishedAt := Some(now)) }

  function MarkFailed(row: Row, now: int, maxAttempts: nat): Row {
    var n := row.attempts + 1;
    if n >= maxAttempts then row.(attempts := n, failedAt := Some(now))
    else row.(attempts := n, nextAt := now + BackoffMs(n))
  }

  predicate Pending(row: Row) { row.publishedAt.None? && row.failedAt.None? }

  predicate IsDue(row: Row, now: int) { Pending(row) && row.nextAt <= now }

  // ---- steps

  datatype Step =
    | Emit(event: EventId, kind: string, now: int)
    | Claim(pass: nat, rows: set<EventId>, now: int)
    | Publish(pass: nat, event: EventId, sent: seq<Service>, ok: bool, now: int)
    | Save(pass: nat)
    | CrashPass(pass: nat)
    | Handle(message: nat, ok: bool)
    | Delete(message: nat)
    | DeadLetter(message: nat)
    | Resend(message: nat)
    | DropDead(message: nat)
    | Cleanup(before: int)

  ghost predicate Locked(b: Bus, e: EventId) { exists p :: p in b.passes && e in b.passes[p].rows }

  /** Sends the event to each service in turn. */
  function SendAll(b: Bus, sent: seq<Service>, e: EventId): Bus {
    if sent == [] then b else
      var c := SendAll(b, sent[..|sent| - 1], e);
      c.(messages := c.messages[c.nextMessage := Message(sent[|sent| - 1], e, false)], nextMessage := c.nextMessage + 1)
  }

  function Work(s: Service, e: EventId, n: nat): seq<Effect> {
    seq(n, h requires 0 <= h < n => Effect(s, e, h))
  }

  ghost predicate Enabled(c: Config, b: Bus, step: Step) {
    match step
    case Emit(e, _, _) => e !in b.emitted
    case Claim(p, rows, now) =>
      p !in b.passes && forall e :: e in rows ==> e in b.outbox && IsDue(b.outbox[e], now) && !Locked(b, e)
    case Publish(p, e, sent, ok, _) =>
      && p in b.passes && e in b.passes[p].todo && e in b.passes[p].rows
      && (ok ==> forall s :: s in c.subscribers(b.passes[p].rows[e].kind) ==> s in sent)
    case Save(p) => p in b.passes && b.passes[p].todo == {}
    case CrashPass(p) => p in b.passes
    case Handle(m, _) => m in b.messages && !b.messages[m].dead && b.messages[m].event in b.emitted
    case Delete(m) => m in b.messages && !b.messages[m].dead && m in b.handled
    case DeadLetter(m) => m in b.messages && !b.messages[m].dead
    case Resend(m) => m in b.messages && b.messages[m].dead
    case DropDead(m) => m in b.messages && b.messages[m].dead && m in b.resent
    case Cleanup(_) => true
  }

  ghost function Next(c: Config, b: Bus, step: Step): Bus
    requires Enabled(c, b, step)
  {
    match step
    case Emit(e, kind, now) => b.(emitted := b.emitted[e := kind], outbox := b.outbox[e := Row(kind, 0, now, None, None)])
    case Claim(p, rows, _) => b.(passes := b.passes[p := Pass(map e | e in rows :: b.outbox[e], rows)])
    case Publish(p, e, sent, ok, now) =>
      var pass := b.passes[p];
      var row := if ok then MarkPublished(pass.rows[e], now) else MarkFailed(pass.rows[e], now, c.maxAttempts);
      SendAll(b, sent, e).(passes := b.passes[p := Pass(pass.rows[e := row], pass.todo - {e})])
    case Save(p) => b.(outbox := b.outbox + b.passes[p].rows, passes := b.passes - {p})
    case CrashPass(p) => b.(passes := b.passes - {p})
    case Handle(m, ok) =>
      var s, e := b.messages[m].service, b.messages[m].event;
      var n := c.handlers(s, b.emitted[e]);
      if n == 0 then b.(handled := b.handled + {m})
      else if !ok then b
      else if (s, e) in b.inbox then b.(handled := b.handled + {m})
      else b.(handled := b.handled + {m}, inbox := b.inbox + {(s, e)}, effects := b.effects + Work(s, e, n))
    case Delete(m) => b.(messages := b.messages - {m})
    case DeadLetter(m) => b.(messages := b.messages[m := b.messages[m].(dead := true)])
    case Resend(m) => SendAll(b, [b.messages[m].service], b.messages[m].event).(resent := b.resent + {m})
    case DropDead(m) => b.(messages := b.messages - {m})
    case Cleanup(before) =>
      b.(outbox := map e | e in b.outbox && !(b.outbox[e].publishedAt.Some? && b.outbox[e].publishedAt.value < before)
                   :: b.outbox[e])
  }

  /** Any interleaving: a step that is not possible when its turn comes does nothing. */
  ghost function Play(c: Config, b: Bus, steps: seq<Step>): Bus {
    if steps == [] then b else
      var mid := Play(c, b, steps[..|steps| - 1]);
      if Enabled(c, mid, steps[|steps| - 1]) then Next(c, mid, steps[|steps| - 1]) else mid
  }

  // ---- invariants

  /** Retryable with attempts left, parked at exactly the limit, or published. */
  predicate InOrder(row: Row, maxAttempts: nat) {
    && !(row.publishedAt.Some? && row.failedAt.Some?)
    && (row.failedAt.Some? ==> row.attempts == maxAttempts)
    && (row.failedAt.None? ==> row.attempts < maxAttempts)
  }

  predicate RowOk(c: Config, row: Row) { InOrder(row, c.maxAttempts) }

  ghost predicate OnItsWay(b: Bus, s: Service, e: EventId, from: nat) {
    exists m :: m >= from && m in b.messages && b.messages[m].service == s && b.messages[m].event == e
  }

  /** In the service's queue or dead-letter queue (as a message numbered at least `from`), or in its
      inbox. */
  ghost predicate Reached(b: Bus, s: Service, e: EventId, from: nat) {
    (s, e) in b.inbox || OnItsWay(b, s, e, from)
  }

  /** Every subscriber that handles the event has it. */
  ghost predicate Delivered(c: Config, b: Bus, e: EventId) {
    e in b.emitted
    && forall s :: s in c.subscribers(b.emitted[e]) && c.handlers(s, b.emitted[e]) > 0 ==> Reached(b, s, e, 0)
  }

  ghost predicate RowKept(c: Config, b: Bus, e: EventId, row: Row) {
    && e in b.emitted && row.kind == b.emitted[e] && RowOk(c, row)
    && (row.publishedAt.Some? ==> Delivered(c, b, e))
  }

  ghost predicate OutboxOk(c: Config, b: Bus) {
    && (forall e :: e in b.outbox ==> RowKept(c, b, e, b.outbox[e]))
    && (forall e :: e in b.emitted ==> e in b.outbox || Delivered(c, b, e))
  }

  ghost predicate PassesOk(c: Config, b: Bus) {
    forall p, e :: p in b.passes && e in b.passes[p].rows ==>
      RowKept(c, b, e, b.passes[p].rows[e]) && (e in b.passes[p].todo ==> Pending(b.passes[p].rows[e]))
  }

  ghost predicate MessagesOk(c: Config, b: Bus) {
    && (forall m :: m in b.messages ==> m < b.nextMessage && b.messages[m].event in b.emitted)
    && (forall m :: m in b.handled ==> m < b.nextMessage)
    && (forall m :: m in b.resent ==> m < b.nextMessage)
    && (forall m :: m in b.messages && m in b.handled ==>
         (b.messages[m].service, b.messages[m].event) in b.inbox
         || c.handlers(b.messages[m].service, b.emitted[b.messages[m].event]) == 0)
    && (forall m :: m in b.messages && m in b.resent ==>
         Reached(b, b.messages[m].service, b.messages[m].event, m + 1)
         || c.handlers(b.messages[m].service, b.emitted[b.messages[m].event]) == 0)
  }

  function Count(effects: seq<Effect>, x: Effect): nat {
    if effects == [] then 0
    else Count(effects[..|effects| - 1], x) + (if effects[|effects| - 1] == x then 1 else 0)
  }

  /** Each handler of an event has taken effect once if the event is in the inbox, and not at all
      otherwise. */
  ghost predicate EffectsOk(c: Config, b: Bus) {
    && (forall s, e :: (s, e) in b.inbox ==> e in b.emitted)
    && (forall x: Effect :: Count(b.effects, x) ==
         if (x.service, x.event) in b.inbox && x.event in b.emitted && x.handler < c.handlers(x.service, b.emitted[x.event])
         then 1 else 0)
  }

  /** No two passes work on one row at the same time. */
  ghost predicate PassesDisjoint(b: Bus) {
    forall p, q, e :: p in b.passes && q in b.passes && e in b.passes[p].rows && e in b.passes[q].rows ==> p == q
  }

  ghost predicate Inv(c: Config, b: Bus) {
    && OutboxOk(c, b) && PassesOk(c, b) && PassesDisjoint(b) && MessagesOk(c, b) && EffectsOk(c, b)
  }

  // ---- every interleaving

  lemma StepKeeps(c: Config, b: Bus, step: Step)
    requires c.maxAttempts > 0 && Inv(c, b) && Enabled(c, b, step)
    ensures Inv(c, Next(c, b, step))
  {
    hide Inv;
    match step
    case Emit(e, kind, now) => EmitKeeps(c, b, e, kind, now);
    case Claim(p, rows, now) => ClaimKeeps(c, b, p, rows, now);
    case Publish(p, e, sent, ok, now) => PublishKeeps(c, b, p, e, sent, ok, now);
    case Save(p) => EndOfPassKeeps(c, b, p);
    case CrashPass(p) => EndOfPassKeeps(c, b, p);
    case Handle(m, ok) => HandleKeeps(c, b, m, ok);
    case Delete(m) => RemovalKeeps(c, b, m);
    case DeadLetter(m) => DeadLetterKeeps(c, b, m);
    case Resend(m) => ResendKeeps(c, b, m);
    case DropDead(m) => RemovalKeeps(c, b, m);
    case Cleanup(before) => CleanupKeeps(c, b, before);
  }

  lemma {:induction false} PlayKeeps(c: Config, b: Bus, steps: seq<Step>)
    requires c.maxAttempts > 0 && Inv(c, b)
    ensures Inv(c, Play(c, b, steps))
  {
    hide Inv, Next, Enabled;
    if steps != [] {
      PlayKeeps(c, b, steps[..|steps| - 1]);
      var mid := Play(c, b, steps[..|steps| - 1]);
      if Enabled(c, mid, steps[|steps| - 1]) {
        StepKeeps(c, mid, steps[|steps| - 1]);
      }
    }
  }

  /** Exactly once: over every interleaving, each handler of an event has taken effect in a service once
      if the event's id is in that inbox, and not at all otherwise: all of them together or none. */
  lemma EffectsHappenOnce(c: Config, steps: seq<Step>, s: Service, e: EventId)
    requires c.maxAttempts > 0
    ensures var b := Play(c, START, steps);
            && ((s, e) in b.inbox ==> e in b.emitted
                                      && forall h: nat :: Count(b.effects, Effect(s, e, h))
                                                          == if h < c.handlers(s, b.emitted[e]) then 1 else 0)
            && ((s, e) !in b.inbox ==> forall h: nat :: Count(b.effects, Effect(s, e, h)) == 0)
  {
    hide Play, Count;
    StartIsFine(c);
    PlayKeeps(c, START, steps);
    var b := Play(c, START, steps);
    assert forall h: nat :: Effect(s, e, h).service == s && Effect(s, e, h).event == e;
  }

  lemma StartIsFine(c: Config)
    ensures Inv(c, START)
  {
  }

  /** No event is lost: over every interleaving, the row of an emitted event is retryable with attempts
      left, parked at exactly the limit, or published and not parked; and when the row is published or
      gone, every subscriber with a handler has the event in its queue, its dead-letter queue or its
      inbox. */
  lemma NoEventIsLost(c: Config, steps: seq<Step>, e: EventId)
    requires c.maxAttempts > 0
    requires e in Play(c, START, steps).emitted
    ensures var b := Play(c, START, steps);
            && (e in b.outbox ==> RowOk(c, b.outbox[e]) && b.outbox[e].kind == b.emitted[e])
            && (e !in b.outbox || b.outbox[e].publishedAt.Some?
                ==> forall s :: s in c.subscribers(b.emitted[e]) && c.handlers(s, b.emitted[e]) > 0 ==> Reached(b, s, e, 0))
  {
    hide Play, Reached;
    StartIsFine(c);
    PlayKeeps(c, START, steps);
    var b := Play(c, START, steps);
    if e in b.outbox {
      assert RowKept(c, b, e, b.outbox[e]);
    }
  }

  // ---- nothing that has arrived goes away

  ghost predicate Later(c: Config, b: Bus, b': Bus) {
    && (forall e :: e in b.emitted ==> e in b'.emitted && b'.emitted[e] == b.emitted[e])
    && b.inbox <= b'.inbox
    && (forall s, e, from :: e in b.emitted && c.handlers(s, b.emitted[e]) > 0 && Reached(b, s, e, from)
                             ==> Reached(b', s, e, from))
  }

  lemma LaterKeepsRow(c: Config, b: Bus, b': Bus, e: EventId, row: Row)
    requires Later(c, b, b') && RowKept(c, b, e, row)
    ensures RowKept(c, b', e, row)
  {
    hide Reached;
    if row.publishedAt.Some? {
      LaterKeepsDelivered(c, b, b', e);
    }
  }

  lemma LaterKeepsDelivered(c: Config, b: Bus, b': Bus, e: EventId)
    requires Later(c, b, b') && Delivered(c, b, e)
    ensures Delivered(c, b', e)
  {
    hide Reached;
  }

  /** Rows that were in order, or are so now, make the outbox and the passes in order. */
  lemma OutboxFollows(c: Config, b: Bus, b': Bus)
    requires Later(c, b, b')
    requires forall e :: e in b'.outbox ==> RowKept(c, b, e, b'.outbox[e]) || RowKept(c, b', e, b'.outbox[e])
    requires forall e :: e in b'.emitted ==> e in b'.outbox || Delivered(c, b, e)
    ensures OutboxOk(c, b')
  {
    hide Reached, RowOk, RowKept, Later, Delivered;
    forall e | e in b'.outbox
      ensures RowKept(c, b', e, b'.outbox[e])
    {
      if RowKept(c, b, e, b'.outbox[e]) {
        LaterKeepsRow(c, b, b', e, b'.outbox[e]);
      }
    }
    forall e | e in b'.emitted && e !in b'.outbox
      ensures Delivered(c, b', e)
    {
      LaterKeepsDelivered(c, b, b', e);
    }
  }

  lemma PassesFollow(c: Config, b: Bus, b': Bus)
    requires Later(c, b, b')
    requires forall p, e :: p in b'.passes && e in b'.passes[p].rows ==>
               && (RowKept(c, b, e, b'.passes[p].rows[e]) || RowKept(c, b', e, b'.passes[p].rows[e]))
               && (e in b'.passes[p].todo ==> Pending(b'.passes[p].rows[e]))
    ensures PassesOk(c, b')
  {
    hide Reached, RowOk, RowKept, Later, Pending;
    forall p, e | p in b'.passes && e in b'.passes[p].rows
      ensures RowKept(c, b', e, b'.passes[p].rows[e])
    {
      if RowKept(c, b, e, b'.passes[p].rows[e]) {
        LaterKeepsRow(c, b, b', e, b'.passes[p].rows[e]);
      }
    }
  }

  /** The messages after sending: the old ones, and one to each service named. */
  lemma {:induction false} SendAllAdds(b: Bus, sent: seq<Service>, e: EventId)
    requires forall m :: m in b.messages ==> m < b.nextMessage
    ensures var d := SendAll(b, sent, e);
            && d == b.(messages := d.messages, nextMessage := d.nextMessage)
            && d.nextMessage == b.nextMessage + |sent|
            && (forall m :: m in b.messages ==> m in d.messages && d.messages[m] == b.messages[m])
            && (forall m :: m in d.messages && m !in b.messages ==> b.nextMessage <= m < d.nextMessage
                                                                    && d.messages[m].event == e && !d.messages[m].dead)
            && (forall s :: s in sent ==> OnItsWay(d, s, e, b.nextMessage))
  {
    if sent != [] {
      var front, last := sent[..|sent| - 1], sent[|sent| - 1];
      SendAllAdds(b, front, e);
      var c, d := SendAll(b, front, e), SendAll(b, sent, e);
      assert d.messages[c.nextMessage] == Message(last, e, false);
      forall s | s in sent
        ensures OnItsWay(d, s, e, b.nextMessage)
      {
        if s != last {
          assert s in front;
          var m :| m >= b.nextMessage && m in c.messages && c.messages[m].service == s && c.messages[m].event == e;
          assert m in d.messages && d.messages[m] == c.messages[m];
        }
      }
    }
  }

  /** Adding messages and keeping the rest is later. */
  lemma MoreMessages(c: Config, b: Bus, b': Bus)
    requires b'.emitted == b.emitted && b.inbox <= b'.inbox
    requires forall m :: m in b.messages ==> m in b'.messages && b'.messages[m].service == b.messages[m].service
                                             && b'.messages[m].event == b.messages[m].event
    ensures Later(c, b, b')
  {
    forall s, e, from | Reached(b, s, e, from)
      ensures Reached(b', s, e, from)
    {
      if OnItsWay(b, s, e, from) {
        var m :| m >= from && m in b.messages && b.messages[m].service == s && b.messages[m].event == e;
        assert m in b'.messages;
      }
    }
  }

  // ---- each step keeps the invariant

  lemma EmitKeeps(c: Config, b: Bus, e: EventId, kind: string, now: int)
    requires c.maxAttempts > 0 && Inv(c, b) && e !in b.emitted
    ensures Inv(c, Next(c, b, Emit(e, kind, now)))
  {
    var b' := Next(c, b, Emit(e, kind, now));
    assert Later(c, b, b') by {
      forall s, x, from | Reached(b, s, x, from)
        ensures Reached(b', s, x, from)
      {
        if OnItsWay(b, s, x, from) {
          var m :| m >= from && m in b.messages && b.messages[m].service == s && b.messages[m].event == x;
          assert m in b'.messages;
        }
      }
    }
    assert RowKept(c, b', e, b'.outbox[e]);
    OutboxFollows(c, b, b');
    PassesFollow(c, b, b');
    MessagesFollow(c, b, b');
  }

  /** Bookkeeping of messages that only looks at what is later. */
  lemma MessagesFollow(c: Config, b: Bus, b': Bus)
    requires MessagesOk(c, b) && Later(c, b, b')
    requires forall m :: m in b'.messages ==> m in b.messages && b'.messages[m].service == b.messages[m].service
                                              && b'.messages[m].event == b.messages[m].event
    requires b'.nextMessage == b.nextMessage && b'.handled == b.handled && b'.resent == b.resent
    ensures MessagesOk(c, b')
  {
    hide Reached;
  }

  lemma ClaimKeeps(c: Config, b: Bus, p: nat, rows: set<EventId>, now: int)
    requires Inv(c, b) && Enabled(c, b, Claim(p, rows, now))
    ensures Inv(c, Next(c, b, Claim(p, rows, now)))
  {
    hide Count, EffectsOk;
    var b' := Next(c, b, Claim(p, rows, now));
    MoreMessages(c, b, b');
    OutboxFollows(c, b, b');
    PassesFollow(c, b, b');
    MessagesFollow(c, b, b');
    SameEffects(c, b, b');
  }

  lemma SameEffects(c: Config, b: Bus, b': Bus)
    requires EffectsOk(c, b) && b'.effects == b.effects && b'.inbox == b.inbox && b'.emitted == b.emitted
    ensures EffectsOk(c, b')
  {
  }

  lemma PublishKeeps(c: Config, b: Bus, p: nat, e: EventId, sent: seq<Service>, ok: bool, now: int)
    requires Inv(c, b) && Enabled(c, b, Publish(p, e, sent, ok, now))
    ensures Inv(c, Next(c, b, Publish(p, e, sent, ok, now)))
  {
    hide SendAll, Count, EffectsOk;
    var b' := Next(c, b, Publish(p, e, sent, ok, now));
    SendAllAdds(b, sent, e);
    MoreMessages(c, b, b');
    assert RowKept(c, b, e, b.passes[p].rows[e]) && Pending(b.passes[p].rows[e]);
    assert ok ==> Delivered(c, b', e) by {
      if ok {
        forall s | s in c.subscribers(b.emitted[e])
          ensures Reached(b', s, e, 0)
        {
          assert OnItsWay(SendAll(b, sent, e), s, e, b.nextMessage);
          var m :| m >= b.nextMessage && m in b'.messages && b'.messages[m].service == s && b'.messages[m].event == e;
        }
      }
    }
    assert RowKept(c, b', e, b'.passes[p].rows[e]);
    OutboxFollows(c, b, b');
    PassesFollow(c, b, b');
    SentMessagesOk(c, b, b');
    SameEffects(c, b, b');
  }

  /** New messages have new numbers, so they are neither handled nor sent back yet. */
  lemma SentMessagesOk(c: Config, b: Bus, b': Bus)
    requires MessagesOk(c, b) && Later(c, b, b') && b.nextMessage <= b'.nextMessage
    requires b'.handled == b.handled && b'.resent == b.resent
    requires forall m :: m in b'.messages && m in b.messages ==> b'.messages[m] == b.messages[m]
    requires forall m :: m in b'.messages && m !in b.messages ==> b.nextMessage <= m < b'.nextMessage
                                                                  && b'.messages[m].event in b'.emitted
    ensures MessagesOk(c, b')
  {
    hide Reached;
  }

  lemma EndOfPassKeeps(c: Config, b: Bus, p: nat)
    requires Inv(c, b) && p in b.passes
    ensures Inv(c, Next(c, b, CrashPass(p)))
    ensures b.passes[p].todo == {} ==> Inv(c, Next(c, b, Save(p)))
  {
    hide Count, EffectsOk, RowKept, RowOk;
    var crashed := Next(c, b, CrashPass(p));
    MoreMessages(c, b, crashed);
    OutboxFollows(c, b, crashed);
    PassesFollow(c, b, crashed);
    MessagesFollow(c, b, crashed);
    SameEffects(c, b, crashed);
    if b.passes[p].todo == {} {
      var saved := Next(c, b, Save(p));
      MoreMessages(c, b, saved);
      OutboxFollows(c, b, saved);
      PassesFollow(c, b, saved);
      MessagesFollow(c, b, saved);
      SameEffects(c, b, saved);
    }
  }

  lemma CleanupKeeps(c: Config, b: Bus, before: int)
    requires Inv(c, b)
    ensures Inv(c, Next(c, b, Cleanup(before)))
  {
    hide Count, EffectsOk;
    var b' := Next(c, b, Cleanup(before));
    MoreMessages(c, b, b');
    forall e | e in b.emitted && e !in b'.outbox
      ensures Delivered(c, b, e)
    {
      if e in b.outbox {
        assert RowKept(c, b, e, b.outbox[e]);
      }
    }
    OutboxFollows(c, b, b');
    PassesFollow(c, b, b');
    MessagesFollow(c, b, b');
    SameEffects(c, b, b');
  }

  lemma {:induction false} CountAppend(a: seq<Effect>, d: seq<Effect>, x: Effect)
    ensures Count(a + d, x) == Count(a, x) + Count(d, x)
  {
    if d == [] {
      assert a + d == a;
    } else {
      assert (a + d)[..|a + d| - 1] == a + d[..|d| - 1];
      CountAppend(a, d[..|d| - 1], x);
    }
  }

  lemma {:induction false} CountWork(s: Service, e: EventId, n: nat, x: Effect)
    ensures Count(Work(s, e, n), x) == if x.service == s && x.event == e && x.handler < n then 1 else 0
  {
    if n > 0 {
      assert Work(s, e, n)[..n - 1] == Work(s, e, n - 1);
      CountWork(s, e, n - 1, x);
    }
  }

  /** The inbox row and all handlers commit together: afterwards each handler has run once, and it had
      not run before. */
  lemma HandleKeeps(c: Config, b: Bus, m: nat, ok: bool)
    requires Inv(c, b) && Enabled(c, b, Handle(m, ok))
    ensures Inv(c, Next(c, b, Handle(m, ok)))
  {
    hide RowKept, Count, Work, EffectsOk, MessagesOk;
    var b' := Next(c, b, Handle(m, ok));
    MoreMessages(c, b, b');
    OutboxFollows(c, b, b');
    PassesFollow(c, b, b');
    HandleKeepsMessages(c, b, m, ok);
    HandleKeepsEffects(c, b, m, ok);
  }

  lemma HandleKeepsMessages(c: Config, b: Bus, m: nat, ok: bool)
    requires MessagesOk(c, b) && Enabled(c, b, Handle(m, ok)) && Later(c, b, Next(c, b, Handle(m, ok)))
    ensures MessagesOk(c, Next(c, b, Handle(m, ok)))
  {
    hide Reached, Work;
  }

  lemma HandleKeepsEffects(c: Config, b: Bus, m: nat, ok: bool)
    requires EffectsOk(c, b) && Enabled(c, b, Handle(m, ok))
    ensures EffectsOk(c, Next(c, b, Handle(m, ok)))
  {
    hide Count, Work;
    var b' := Next(c, b, Handle(m, ok));
    var s, e := b.messages[m].service, b.messages[m].event;
    if b'.inbox != b.inbox {
      forall x: Effect
        ensures Count(b'.effects, x) ==
          if (x.service, x.event) in b'.inbox && x.event in b'.emitted && x.handler < c.handlers(x.service, b'.emitted[x.event])
          then 1 else 0
      {
        CountAppend(b.effects, Work(s, e, c.handlers(s, b.emitted[e])), x);
        CountWork(s, e, c.handlers(s, b.emitted[e]), x);
      }
    }
  }

  /** A message goes away only when its event is in the inbox (or nobody handles it), or when a later
      copy of it exists. */
  lemma RemovalIsLater(c: Config, b: Bus, m: nat)
    requires MessagesOk(c, b) && m in b.messages && (m in b.handled || m in b.resent)
    ensures Later(c, b, b.(messages := b.messages - {m}))
  {
    var b' := b.(messages := b.messages - {m});
    forall s, e, from | e in b.emitted && c.handlers(s, b.emitted[e]) > 0 && Reached(b, s, e, from)
      ensures Reached(b', s, e, from)
    {
      if (s, e) !in b.inbox {
        var k :| k >= from && k in b.messages && b.messages[k].service == s && b.messages[k].event == e;
        if k == m {
          assert m !in b.handled;
          assert OnItsWay(b, s, e, m + 1);
          var l :| l >= m + 1 && l in b.messages && b.messages[l].service == s && b.messages[l].event == e;
          assert l in b'.messages;
        } else {
          assert k in b'.messages;
        }
      }
    }
  }

  lemma RemovalKeeps(c: Config, b: Bus, m: nat)
    requires Inv(c, b) && m in b.messages && (m in b.handled || m in b.resent)
    ensures Inv(c, b.(messages := b.messages - {m}))
  {
    hide RowKept, EffectsOk;
    var b' := b.(messages := b.messages - {m});
    RemovalIsLater(c, b, m);
    OutboxFollows(c, b, b');
    PassesFollow(c, b, b');
    MessagesFollow(c, b, b');
    SameEffects(c, b, b');
  }

  lemma DeadLetterKeeps(c: Config, b: Bus, m: nat)
    requires Inv(c, b) && Enabled(c, b, DeadLetter(m))
    ensures Inv(c, Next(c, b, DeadLetter(m)))
  {
    hide RowKept, EffectsOk;
    var b' := Next(c, b, DeadLetter(m));
    MoreMessages(c, b, b');
    OutboxFollows(c, b, b');
    PassesFollow(c, b, b');
    MessagesFollow(c, b, b');
    SameEffects(c, b, b');
  }

  lemma ResendKeeps(c: Config, b: Bus, m: nat)
    requires Inv(c, b) && Enabled(c, b, Resend(m))
    ensures Inv(c, Next(c, b, Resend(m)))
  {
    hide RowKept, EffectsOk, SendAll;
    var s, e := b.messages[m].service, b.messages[m].event;
    var mid, b' := SendAll(b, [s], e), Next(c, b, Resend(m));
    SendAllAdds(b, [s], e);
    MoreMessages(c, b, mid);
    MoreMessages(c, b, b');
    MoreMessages(c, mid, b');
    OutboxFollows(c, b, b');
    PassesFollow(c, b, b');
    SentMessagesOk(c, b, mid);
    assert Reached(b', s, e, m + 1) by {
      assert s in [s];
      var k :| k >= b.nextMessage && k in mid.messages && mid.messages[k].service == s && mid.messages[k].event == e;
      assert k in b'.messages;
    }
    ResentMessagesOk(c, mid, b', m);
    SameEffects(c, b, b');
  }

  lemma ResentMessagesOk(c: Config, mid: Bus, b': Bus, m: nat)
    requires MessagesOk(c, mid) && m in mid.messages && b' == mid.(resent := mid.resent + {m})
    requires Later(c, mid, b') && Reached(b', mid.messages[m].service, mid.messages[m].event, m + 1)
    ensures MessagesOk(c, b')
  {
    hide Reached;
  }
}
