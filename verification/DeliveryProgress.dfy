/** What the steps of event delivery achieve, one by one and in an undisturbed run, and which events can
    still take effect after any other run. */
module DeliveryProgress {
  import opened Decimals
  import opened EventBus
  import Arith

  // ---- retries

  /** One second, doubled with each attempt up to five minutes. */
  lemma BackoffIs(n: nat)
    ensures BackoffMs(0) == 1000 && BackoffMs(n + 1) == Arith.Min(2 * BackoffMs(n), 5 * 60 * 1000)
  {
    assert Pow2(n + 1) == 2 * Pow2(n);
  }

  /** A failed publish: the row is due again exactly when its wait is over, or never once its attempts are
      used up; and a published row is never due again. */
  lemma RetryIs(row: Row, now: int, max: nat, t: int)
    requires Pending(row)
    ensures var failed, n := MarkFailed(row, now, max), row.attempts + 1;
            && failed.attempts == n && failed.kind == row.kind && failed.publishedAt == None
            && (failed.failedAt == if n < max then None else Some(now))
            && (IsDue(failed, t) <==> n < max && t - now >= BackoffMs(n))
    ensures !IsDue(MarkPublished(row, now), t) && MarkPublished(row, now).publishedAt == Some(now)
  {
    hide BackoffMs;
    var failed := MarkFailed(row, now, max);
    if row.attempts + 1 >= max {
      assert failed.failedAt == Some(now);
    }
  }

  // ---- each step

  lemma EmitIs(c: Config, b: Bus, e: EventId, kind: string, now: int, t: int)
    requires Enabled(c, b, Emit(e, kind, now))
    ensures var b' := Next(c, b, Emit(e, kind, now));
            && e in b'.emitted && b'.emitted[e] == kind && e in b'.outbox && b'.outbox[e].kind == kind
            && b'.outbox[e].attempts == 0 && (IsDue(b'.outbox[e], t) <==> t >= now)
            && b'.emitted - {e} == b.emitted && b'.outbox - {e} == b.outbox - {e}
            && b' == b.(emitted := b'.emitted, outbox := b'.outbox)
  {
  }

  /** A pass locks just the rows it claims and has them all still to publish. */
  lemma ClaimIs(c: Config, b: Bus, p: nat, rows: set<EventId>, now: int, e: EventId)
    requires Enabled(c, b, Claim(p, rows, now))
    ensures var b' := Next(c, b, Claim(p, rows, now));
            && p in b'.passes && b'.passes[p].rows.Keys == rows && b'.passes[p].todo == rows
            && (e in rows ==> b'.passes[p].rows[e] == b.outbox[e])
            && (Locked(b', e) <==> Locked(b, e) || e in rows)
            && b'.passes - {p} == b.passes && b' == b.(passes := b'.passes)
  {
    var b' := Next(c, b, Claim(p, rows, now));
    assert forall q :: q in b.passes ==> q in b'.passes && b'.passes[q] == b.passes[q];
    assert p in b'.passes;
  }

  /** Sending puts one live message for each service behind all earlier ones, in turn. */
  lemma {:induction false} SentIs(b: Bus, sent: seq<Service>, e: EventId, i: nat)
    requires i < |sent|
    ensures var d := SendAll(b, sent, e);
            && d.nextMessage == b.nextMessage + |sent|
            && b.nextMessage + i in d.messages && d.messages[b.nextMessage + i] == Message(sent[i], e, false)
  {
    var front := sent[..|sent| - 1];
    if i < |front| {
      SentIs(b, front, e, i);
      SentCount(b, front, e);
    } else {
      SentCount(b, front, e);
    }
  }

  lemma {:induction false} SentCount(b: Bus, sent: seq<Service>, e: EventId)
    ensures SendAll(b, sent, e).nextMessage == b.nextMessage + |sent|
  {
    if sent != [] {
      SentCount(b, sent[..|sent| - 1], e);
    }
  }

  /** One row tried: the messages sent, the working copy marked, and nothing else; saving then writes the
      pass's copies over the outbox rows, and a crash leaves the outbox as it was. */
  lemma PassIs(c: Config, b: Bus, p: nat, e: EventId, sent: seq<Service>, ok: bool, now: int)
    requires Enabled(c, b, Publish(p, e, sent, ok, now))
    ensures var b', was := Next(c, b, Publish(p, e, sent, ok, now)), b.passes[p];
            && b'.messages == SendAll(b, sent, e).messages && b'.nextMessage == b.nextMessage + |sent|
            && p in b'.passes && b'.passes[p].todo == was.todo - {e} && b'.passes[p].rows - {e} == was.rows - {e}
            && e in b'.passes[p].rows && b'.passes - {p} == b.passes - {p}
            && (ok ==> b'.passes[p].rows[e] == was.rows[e].(publishedAt := Some(now)))
            && (!ok ==> b'.passes[p].rows[e] == MarkFailed(was.rows[e], now, c.maxAttempts))
            && b' == b.(messages := b'.messages, nextMessage := b'.nextMessage, passes := b'.passes)
  {
    hide MarkFailed;
    SentCount(b, sent, e);
    SendingKeepsTheRest(b, sent, e);
  }

  lemma {:induction false} SendingKeepsTheRest(b: Bus, sent: seq<Service>, e: EventId)
    ensures var d := SendAll(b, sent, e); d == b.(messages := d.messages, nextMessage := d.nextMessage)
  {
    if sent != [] {
      SendingKeepsTheRest(b, sent[..|sent| - 1], e);
    }
  }

  lemma EndOfPassIs(c: Config, b: Bus, p: nat, e: EventId)
    requires p in b.passes
    ensures var crashed := Next(c, b, CrashPass(p)); crashed == b.(passes := b.passes - {p})
    ensures Enabled(c, b, Save(p)) <==> b.passes[p].todo == {}
    ensures b.passes[p].todo == {} ==>
              var saved := Next(c, b, Save(p));
              && (e in saved.outbox <==> e in b.outbox || e in b.passes[p].rows)
              && (e in b.passes[p].rows ==> saved.outbox[e] == b.passes[p].rows[e])
              && (e in b.outbox && e !in b.passes[p].rows ==> saved.outbox[e] == b.outbox[e])
              && p !in saved.passes && saved.passes == b.passes - {p}
              && saved == b.(outbox := saved.outbox, passes := saved.passes)
  {
  }

  /** A message whose handlers succeed is processed: it may be deleted, its event is in the inbox, and every
      handler has taken effect once. One whose handlers fail leaves no trace, and one without handlers is
      done with at once. */
  lemma HandleAnswers(c: Config, b: Bus, m: nat, ok: bool)
    requires Inv(c, b) && Enabled(c, b, Handle(m, ok))
    ensures var b' := Next(c, b, Handle(m, ok));
            var s, e := b.messages[m].service, b.messages[m].event;
            var n := c.handlers(s, b.emitted[e]);
            && (ok ==> m in b'.handled && (n > 0 ==> (s, e) in b'.inbox)
                       && forall h: nat :: h < n ==> Count(b'.effects, Effect(s, e, h)) == 1)
            && (!ok && n > 0 ==> b' == b)
            && (n == 0 ==> m in b'.handled && b'.inbox == b.inbox && b'.effects == b.effects)
            && b'.handled <= b.handled + {m} && b'.inbox <= b.inbox + {(s, e)}
            && b' == b.(handled := b'.handled, inbox := b'.inbox, effects := b'.effects)
  {
    hide OutboxOk, PassesOk, PassesDisjoint, MessagesOk, Count, Work;
    var b' := Next(c, b, Handle(m, ok));
    var s, e := b.messages[m].service, b.messages[m].event;
    HandleKeepsEffects(c, b, m, ok);
    assert forall h: nat :: Effect(s, e, h).service == s && Effect(s, e, h).event == e;
  }

  /** What happens to one message: deleted once handled, moved to the dead-letter queue, copied back as the
      newest live message, dropped once copied. No other message is touched. */
  lemma MessageStepsAre(c: Config, b: Bus, m: nat)
    requires Inv(c, b) && m in b.messages
    ensures Enabled(c, b, Delete(m)) <==> !b.messages[m].dead && m in b.handled
    ensures Enabled(c, b, DropDead(m)) <==> b.messages[m].dead && m in b.resent
    ensures Enabled(c, b, Delete(m)) ==> Next(c, b, Delete(m)) == b.(messages := b.messages - {m})
    ensures Enabled(c, b, DropDead(m)) ==> Next(c, b, DropDead(m)) == b.(messages := b.messages - {m})
    ensures !b.messages[m].dead ==>
              && Enabled(c, b, DeadLetter(m))
              && var b' := Next(c, b, DeadLetter(m));
                 && b'.messages - {m} == b.messages - {m} && m in b'.messages && b'.messages[m].dead
                 && b'.messages[m].service == b.messages[m].service && b'.messages[m].event == b.messages[m].event
                 && b' == b.(messages := b'.messages)
    ensures b.messages[m].dead ==>
              && Enabled(c, b, Resend(m))
              && var b' := Next(c, b, Resend(m));
                 && b'.nextMessage == b.nextMessage + 1 && b'.messages - {b.nextMessage} == b.messages
                 && b.nextMessage in b'.messages
                 && b'.messages[b.nextMessage] == Message(b.messages[m].service, b.messages[m].event, false)
                 && b'.resent == b.resent + {m}
                 && b' == b.(messages := b'.messages, nextMessage := b'.nextMessage, resent := b'.resent)
  {
    hide OutboxOk, PassesOk, PassesDisjoint, EffectsOk, Reached, SendAll;
    if b.messages[m].dead {
      var s, e := b.messages[m].service, b.messages[m].event;
      SendOne(b, s, e);
      assert b.nextMessage !in b.messages;
    }
  }

  /** Only rows published before that time go. */
  lemma CleanupIs(c: Config, b: Bus, before: int, e: EventId)
    ensures var b' := Next(c, b, Cleanup(before));
            && (e in b'.outbox <==> e in b.outbox && (b.outbox[e].publishedAt == None || b.outbox[e].publishedAt.value >= before))
            && (e in b'.outbox ==> b'.outbox[e] == b.outbox[e])
            && b' == b.(outbox := b'.outbox)
  {
  }

  // ---- the undisturbed run

  lemma PlayOne(c: Config, b: Bus, steps: seq<Step>, step: Step)
    ensures var mid := Play(c, b, steps);
            Play(c, b, steps + [step]) == if Enabled(c, mid, step) then Next(c, mid, step) else mid
  {
    assert (steps + [step])[..|steps|] == steps;
  }

  /** A new event with one subscriber, published, saved, handled and deleted: it ends with the event in the
      inbox, each handler's effect counted once, its row published, and its message gone. */
  lemma UndisturbedRun(c: Config, b: Bus, e: EventId, kind: string, s: Service, p: nat, now: int)
    requires c.maxAttempts > 0 && Inv(c, b) && e !in b.emitted && p !in b.passes
    requires c.subscribers(kind) == {s} && c.handlers(s, kind) > 0
    ensures var m := b.nextMessage;
            var run := [Emit(e, kind, now), Claim(p, {e}, now), Publish(p, e, [s], true, now), Save(p), Handle(m, true), Delete(m)];
            var end := Play(c, b, run);
            && (s, e) in end.inbox && (forall h: nat :: h < c.handlers(s, kind) ==> Count(end.effects, Effect(s, e, h)) == 1)
            && e in end.outbox && end.outbox[e].publishedAt == Some(now)
            && end.messages == b.messages && end.passes == b.passes
  {
    hide Inv, Play, Next, Count;
    var m := b.nextMessage;
    var emitted, claimed, sent, saved := PublishedRun(c, b, e, kind, s, p, now);
    var run := [Emit(e, kind, now), Claim(p, {e}, now), Publish(p, e, [s], true, now), Save(p)];
    PlayFour(c, b, run[0], run[1], run[2], run[3]);
    HandleAnswers(c, saved, m, true);
    StepKeeps(c, saved, Handle(m, true));
    var handled := Next(c, saved, Handle(m, true));
    MessageStepsAre(c, handled, m);
    PlayOne(c, b, run, Handle(m, true));
    PlayOne(c, b, run + [Handle(m, true)], Delete(m));
    assert run + [Handle(m, true)] + [Delete(m)]
        == [Emit(e, kind, now), Claim(p, {e}, now), Publish(p, e, [s], true, now), Save(p), Handle(m, true), Delete(m)];
  }

  lemma PlayNothing(c: Config, b: Bus)
    ensures Play(c, b, []) == b
  {
  }

  lemma PlayFour(c: Config, b: Bus, s1: Step, s2: Step, s3: Step, s4: Step)
    requires Enabled(c, b, s1) && Enabled(c, Next(c, b, s1), s2) && Enabled(c, Next(c, Next(c, b, s1), s2), s3)
    requires Enabled(c, Next(c, Next(c, Next(c, b, s1), s2), s3), s4)
    ensures Play(c, b, [s1, s2, s3, s4]) == Next(c, Next(c, Next(c, Next(c, b, s1), s2), s3), s4)
  {
    hide Next, Enabled, Play;
    PlayNothing(c, b);
    PlayOne(c, b, [], s1);
    PlayOne(c, b, [s1], s2);
    PlayOne(c, b, [s1, s2], s3);
    PlayOne(c, b, [s1, s2, s3], s4);
    assert [] + [s1] == [s1] && [s1] + [s2] == [s1, s2];
    assert [s1, s2] + [s3] == [s1, s2, s3] && [s1, s2, s3] + [s4] == [s1, s2, s3, s4];
  }

  /** The first four steps of that run, each possible after the one before. */
  lemma PublishedRun(c: Config, b: Bus, e: EventId, kind: string, s: Service, p: nat, now: int)
    returns (emitted: Bus, claimed: Bus, sent: Bus, saved: Bus)
    requires c.maxAttempts > 0 && Inv(c, b) && e !in b.emitted && p !in b.passes && c.subscribers(kind) == {s}
    ensures Enabled(c, b, Emit(e, kind, now)) && emitted == Next(c, b, Emit(e, kind, now))
    ensures Enabled(c, emitted, Claim(p, {e}, now)) && claimed == Next(c, emitted, Claim(p, {e}, now))
    ensures Enabled(c, claimed, Publish(p, e, [s], true, now)) && sent == Next(c, claimed, Publish(p, e, [s], true, now))
    ensures Enabled(c, sent, Save(p)) && saved == Next(c, sent, Save(p))
    ensures Inv(c, saved) && e in saved.outbox && saved.outbox[e].publishedAt == Some(now)
    ensures e in saved.emitted && saved.emitted[e] == kind && saved.passes == b.passes
    ensures saved.messages == b.messages[b.nextMessage := Message(s, e, false)] && b.nextMessage !in b.messages
  {
    hide Next, Inv, SendAll;
    emitted, claimed := ClaimedRun(c, b, e, kind, p, now);
    sent := Next(c, claimed, Publish(p, e, [s], true, now));
    PassIs(c, claimed, p, e, [s], true, now);
    StepKeeps(c, claimed, Publish(p, e, [s], true, now));
    SendOne(claimed, s, e);
    assert sent.passes[p].todo == {};
    saved := Next(c, sent, Save(p));
    EndOfPassIs(c, sent, p, e);
    StepKeeps(c, sent, Save(p));
  }

  lemma SendOne(b: Bus, s: Service, e: EventId)
    ensures SendAll(b, [s], e) == b.(messages := b.messages[b.nextMessage := Message(s, e, false)], nextMessage := b.nextMessage + 1)
  {
    assert [s][..0] == [];
    assert SendAll(b, [], e) == b;
  }

  lemma ClaimedRun(c: Config, b: Bus, e: EventId, kind: string, p: nat, now: int) returns (emitted: Bus, claimed: Bus)
    requires c.maxAttempts > 0 && Inv(c, b) && e !in b.emitted && p !in b.passes
    ensures Enabled(c, b, Emit(e, kind, now)) && emitted == Next(c, b, Emit(e, kind, now))
    ensures Enabled(c, emitted, Claim(p, {e}, now)) && claimed == Next(c, emitted, Claim(p, {e}, now))
    ensures Inv(c, claimed) && p in claimed.passes && claimed.passes[p].todo == {e} && claimed.passes[p].rows.Keys == {e}
    ensures claimed.passes[p].rows[e].kind == kind && claimed.passes - {p} == b.passes
    ensures e in claimed.emitted && claimed.emitted[e] == kind && claimed.messages == b.messages
    ensures claimed.nextMessage == b.nextMessage && b.nextMessage !in b.messages
  {
    hide Next, Inv;
    NewEventIsUnknown(c, b, e);
    emitted := Next(c, b, Emit(e, kind, now));
    EmitIs(c, b, e, kind, now, now);
    StepKeeps(c, b, Emit(e, kind, now));
    claimed := Next(c, emitted, Claim(p, {e}, now));
    ClaimIs(c, emitted, p, {e}, now, e);
    StepKeeps(c, emitted, Claim(p, {e}, now));
  }

  lemma NewEventIsUnknown(c: Config, b: Bus, e: EventId)
    requires Inv(c, b) && e !in b.emitted
    ensures !Locked(b, e) && b.nextMessage !in b.messages
  {
  }

  // ---- which events can still take effect

  lemma {:induction false} PlayJoin(c: Config, b: Bus, first: seq<Step>, second: seq<Step>)
    ensures Play(c, b, first + second) == Play(c, Play(c, b, first), second)
  {
    hide Next, Enabled;
    if second == [] {
      assert first + second == first;
    } else {
      var front, last := second[..|second| - 1], second[|second| - 1];
      PlayJoin(c, b, first, front);
      PlayOne(c, b, first + front, last);
      PlayOne(c, Play(c, b, first), front, last);
      assert first + front + [last] == first + second && front + [last] == second;
    }
  }

  lemma LiveArrives(c: Config, b: Bus, m: nat)
    requires Inv(c, b) && m in b.messages && !b.messages[m].dead
    requires c.handlers(b.messages[m].service, b.emitted[b.messages[m].event]) > 0
    ensures (b.messages[m].service, b.messages[m].event) in Play(c, b, [Handle(m, true)]).inbox
  {
    HandleAnswers(c, b, m, true);
    hide Inv, Next;
    PlayNothing(c, b);
    PlayOne(c, b, [], Handle(m, true));
    assert [] + [Handle(m, true)] == [Handle(m, true)];
  }

  /** Whatever is on its way can be brought into the inbox: handled, after a redrive if it is dead. */
  lemma OnItsWayArrives(c: Config, b: Bus, s: Service, e: EventId) returns (more: seq<Step>)
    requires c.maxAttempts > 0 && Inv(c, b) && Reached(b, s, e, 0) && e in b.emitted && c.handlers(s, b.emitted[e]) > 0
    ensures (s, e) in Play(c, b, more).inbox
  {
    hide Inv, Play, Next;
    if (s, e) in b.inbox {
      PlayNothing(c, b);
      return [];
    }
    var m :| m in b.messages && b.messages[m].service == s && b.messages[m].event == e;
    if !b.messages[m].dead {
      LiveArrives(c, b, m);
      return [Handle(m, true)];
    }
    MessageStepsAre(c, b, m);
    StepKeeps(c, b, Resend(m));
    PlayNothing(c, b);
    PlayOne(c, b, [], Resend(m));
    assert [] + [Resend(m)] == [Resend(m)];
    LiveArrives(c, Next(c, b, Resend(m)), b.nextMessage);
    more := [Resend(m)] + [Handle(b.nextMessage, true)];
    PlayJoin(c, b, [Resend(m)], [Handle(b.nextMessage, true)]);
  }

  lemma {:induction false} Listed(xs: set<Service>) returns (list: seq<Service>)
    ensures forall x :: x in xs ==> x in list
    decreases xs
  {
    if xs == {} {
      return [];
    }
    var x :| x in xs;
    var rest := Listed(xs - {x});
    list := rest + [x];
  }

  lemma {:induction false} NewPass(passes: map<nat, Pass>) returns (p: nat)
    ensures p !in passes
  {
    p := Beyond(passes.Keys);
  }

  lemma {:induction false} Beyond(xs: set<nat>) returns (p: nat)
    ensures forall x :: x in xs ==> x < p
    decreases xs
  {
    if xs == {} {
      return 0;
    }
    var x :| x in xs;
    var q := Beyond(xs - {x});
    assert forall y :: y in xs ==> y == x || y in xs - {x};
    p := if q <= x then x + 1 else q;
  }

  /** A pending row can be published to all its subscribers, after the pass that has it locked died. */
  lemma PendingIsSent(c: Config, b: Bus, s: Service, e: EventId) returns (more: seq<Step>)
    requires c.maxAttempts > 0 && Inv(c, b) && e in b.outbox && Pending(b.outbox[e])
    requires e in b.emitted && s in c.subscribers(b.emitted[e]) && c.handlers(s, b.emitted[e]) > 0
    ensures Reached(Play(c, b, more), s, e, 0)
    ensures e in Play(c, b, more).emitted && Play(c, b, more).emitted[e] == b.emitted[e]
  {
    if p :| p in b.passes && e in b.passes[p].rows {
      PlayNothing(c, b);
      PlayOne(c, b, [], CrashPass(p));
      assert [] + [CrashPass(p)] == [CrashPass(p)];
      StepKeeps(c, b, CrashPass(p));
      var after := Next(c, b, CrashPass(p));
      assert !Locked(after, e);
      var rest := UnlockedIsSent(c, after, s, e);
      more := [CrashPass(p)] + rest;
      hide Inv, Next, Play, Locked, Reached;
      PlayJoin(c, b, [CrashPass(p)], rest);
    } else {
      more := UnlockedIsSent(c, b, s, e);
    }
  }

  lemma UnlockedIsSent(c: Config, b: Bus, s: Service, e: EventId) returns (more: seq<Step>)
    requires c.maxAttempts > 0 && Inv(c, b) && e in b.outbox && Pending(b.outbox[e]) && !Locked(b, e)
    requires e in b.emitted && s in c.subscribers(b.emitted[e]) && c.handlers(s, b.emitted[e]) > 0
    ensures Reached(Play(c, b, more), s, e, 0)
    ensures e in Play(c, b, more).emitted && Play(c, b, more).emitted[e] == b.emitted[e]
  {
    hide Next, Play, Reached;
    var p := NewPass(b.passes);
    var now := b.outbox[e].nextAt;
    var sent := Listed(c.subscribers(b.emitted[e]));
    assert RowKept(c, b, e, b.outbox[e]);
    StepKeeps(c, b, Claim(p, {e}, now));
    ClaimIs(c, b, p, {e}, now, e);
    var claimed := Next(c, b, Claim(p, {e}, now));
    PassIs(c, claimed, p, e, sent, true, now);
    var last := Next(c, claimed, Publish(p, e, sent, true, now));
    SentArrives(claimed, last, sent, s, e);
    hide Inv, Locked;
    PlayNothing(c, b);
    PlayOne(c, b, [], Claim(p, {e}, now));
    PlayOne(c, b, [Claim(p, {e}, now)], Publish(p, e, sent, true, now));
    assert [] + [Claim(p, {e}, now)] == [Claim(p, {e}, now)];
    more := [Claim(p, {e}, now)] + [Publish(p, e, sent, true, now)];
  }

  lemma SentArrives(b: Bus, after: Bus, sent: seq<Service>, s: Service, e: EventId)
    requires s in sent && after.messages == SendAll(b, sent, e).messages
    ensures Reached(after, s, e, 0)
  {
    var i :| 0 <= i < |sent| && sent[i] == s;
    SentIs(b, sent, e, i);
    assert b.nextMessage + i in after.messages;
  }

  /** A row that a pass has locked is still pending in the outbox. */
  ghost predicate LockedPending(b: Bus) {
    forall p, e :: p in b.passes && e in b.passes[p].rows ==> e in b.outbox && Pending(b.outbox[e])
  }

  lemma StepKeepsLocked(c: Config, b: Bus, step: Step)
    requires Inv(c, b) && LockedPending(b) && Enabled(c, b, step)
    ensures LockedPending(Next(c, b, step))
  {
    hide OutboxOk, MessagesOk, EffectsOk, PassesOk, SendAll;
    if step.Publish? {
      PassIs(c, b, step.pass, step.event, step.sent, step.ok, step.now);
    } else if step.Resend? {
      SendingKeepsTheRest(b, [b.messages[step.message].service], b.messages[step.message].event);
    }
  }

  lemma {:induction false} LockedArePending(c: Config, steps: seq<Step>)
    requires c.maxAttempts > 0
    ensures Inv(c, Play(c, START, steps)) && LockedPending(Play(c, START, steps))
  {
    hide Inv, Next, Enabled, LockedPending;
    StartIsFine(c);
    PlayKeeps(c, START, steps);
    if steps != [] {
      var front, last := steps[..|steps| - 1], steps[|steps| - 1];
      LockedArePending(c, front);
      if Enabled(c, Play(c, START, front), last) {
        StepKeepsLocked(c, Play(c, START, front), last);
      }
    } else {
      NothingLocked();
    }
  }

  lemma NothingLocked()
    ensures LockedPending(START)
  {
  }

  /** Parked, and neither at this service nor on its way to it. */
  ghost predicate Stranded(b: Bus, s: Service, e: EventId) {
    && e in b.emitted && e in b.outbox && b.outbox[e].failedAt.Some? && b.outbox[e].publishedAt.None?
    && !Locked(b, e) && !Reached(b, s, e, 0)
  }

  lemma StepKeepsStranded(c: Config, b: Bus, step: Step, s: Service, e: EventId)
    requires Inv(c, b) && Stranded(b, s, e) && Enabled(c, b, step)
    ensures Stranded(Next(c, b, step), s, e)
  {
    hide Inv, Next, Enabled, Reached, Locked;
    StepKeepsParked(c, b, step, s, e);
    StepReachesNobody(c, b, step, s, e);
  }

  lemma StepKeepsParked(c: Config, b: Bus, step: Step, s: Service, e: EventId)
    requires Stranded(b, s, e) && Enabled(c, b, step)
    ensures var b' := Next(c, b, step);
            && e in b'.emitted && e in b'.outbox && b'.outbox[e].failedAt.Some? && b'.outbox[e].publishedAt.None?
            && !Locked(b', e)
  {
    hide SendAll, MarkFailed, Work, Reached;
    match step {
      case Publish(p, x, sent, ok, now) =>
        PassIs(c, b, p, x, sent, ok, now);
      case Resend(m) =>
        SendingKeepsTheRest(b, [b.messages[m].service], b.messages[m].event);
      case _ =>
    }
  }

  lemma StepReachesNobody(c: Config, b: Bus, step: Step, s: Service, e: EventId)
    requires Inv(c, b) && Stranded(b, s, e) && Enabled(c, b, step)
    ensures !Reached(Next(c, b, step), s, e, 0)
  {
    hide OutboxOk, EffectsOk, PassesOk, PassesDisjoint, SendAll, MarkFailed, Work;
    var b' := Next(c, b, step);
    match step {
      case Publish(p, x, sent, ok, now) =>
        assert x != e;
        SendAllAdds(b, sent, x);
      case Resend(m) =>
        assert b.messages[m].service != s || b.messages[m].event != e;
        SendOne(b, b.messages[m].service, b.messages[m].event);
      case _ =>
    }
    StillUnreached(b, b', s, e);
  }

  lemma StillUnreached(b: Bus, b': Bus, s: Service, e: EventId)
    requires !Reached(b, s, e, 0) && ((s, e) in b'.inbox ==> (s, e) in b.inbox)
    requires forall m :: m in b'.messages && b'.messages[m].service == s && b'.messages[m].event == e ==>
               m in b.messages && b.messages[m].service == s && b.messages[m].event == e
    ensures !Reached(b', s, e, 0)
  {
  }

  lemma {:induction false} StrandedStays(c: Config, b: Bus, steps: seq<Step>, s: Service, e: EventId)
    requires c.maxAttempts > 0 && Inv(c, b) && Stranded(b, s, e)
    ensures Stranded(Play(c, b, steps), s, e)
  {
    hide Inv, Next, Enabled, Stranded;
    if steps != [] {
      var front, last := steps[..|steps| - 1], steps[|steps| - 1];
      StrandedStays(c, b, front, s, e);
      PlayKeeps(c, b, front);
      if Enabled(c, Play(c, b, front), last) {
        StepKeepsStranded(c, Play(c, b, front), last, s, e);
      }
    }
  }

  /** After any run, an emitted event can still take effect at a subscriber that handles it exactly when
      its row is not parked, or a copy has reached that service already. */
  lemma CanArriveIff(c: Config, past: seq<Step>, s: Service, e: EventId)
    requires c.maxAttempts > 0
    requires var b := Play(c, START, past);
             e in b.emitted && s in c.subscribers(b.emitted[e]) && c.handlers(s, b.emitted[e]) > 0
    ensures var b := Play(c, START, past);
            (exists more :: (s, e) in Play(c, b, more).inbox)
            <==> Reached(b, s, e, 0) || (e in b.outbox && b.outbox[e].failedAt.None?)
  {
    var b := Play(c, START, past);
    LockedArePending(c, past);
    if Reached(b, s, e, 0) {
      hide *;
      var more := OnItsWayArrives(c, b, s, e);
    } else if e in b.outbox && b.outbox[e].failedAt.None? {
      assert b.outbox[e].publishedAt.None? by {
        assert RowKept(c, b, e, b.outbox[e]);
      }
      PendingArrives(c, b, s, e);
    } else {
      assert Stranded(b, s, e) by {
        assert e in b.outbox ==> RowKept(c, b, e, b.outbox[e]);
      }
      forall more
        ensures (s, e) !in Play(c, b, more).inbox
      {
        StrandedStays(c, b, more, s, e);
      }
    }
  }

  lemma PendingArrives(c: Config, b: Bus, s: Service, e: EventId)
    requires c.maxAttempts > 0 && Inv(c, b) && e in b.outbox && Pending(b.outbox[e])
    requires e in b.emitted && s in c.subscribers(b.emitted[e]) && c.handlers(s, b.emitted[e]) > 0
    ensures exists more :: (s, e) in Play(c, b, more).inbox
  {
    hide Inv, Play, Reached;
    var more := PendingIsSent(c, b, s, e);
    PlayKeeps(c, b, more);
    var rest := OnItsWayArrives(c, Play(c, b, more), s, e);
    PlayJoin(c, b, more, rest);
    assert (s, e) in Play(c, b, more + rest).inbox;
  }
}
