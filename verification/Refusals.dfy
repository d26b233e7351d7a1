/**
 Runs in which a refusal is not the last word: a settled request that an older copy starts, and a
 running one that the SDK is told was not dispatched. Each comes with exactly the configurations
 that allow it.
 */
module Refusals {
  import opened Common
  import opened AtMostOnce
  import opened Overtaking
  import C = RetryClient
  import L = Ledger

  const REFUSAL := L.Failure(L.NotDispatched, 0)

  ghost function Created(s: State, id: L.Id): State {
    s.(requests := s.requests[id := C.Request(Some(0), s.now, false, false, 0)], commands := s.commands[id := 0])
  }

  function Copy(s: State, id: L.Id, milliseconds: nat, copy: nat): Message {
    Message(id, 0, milliseconds, s.now, copy)
  }

  ghost function Dispatched(s: State, id: L.Id, milliseconds: nat, copy: nat): State
    requires id in s.requests
  {
    var m := Copy(s, id, milliseconds, copy);
    s.(requests := s.requests[id := s.requests[id].(lastWait := milliseconds * C.MILLISECOND)],
       waiting := s.waiting[id := Round(m, None)], network := s.network + {m})
  }

  /** The request may be waited on for this long. */
  ghost predicate Open(p: Params, s: State, id: L.Id, milliseconds: nat) {
    && id in s.requests && id !in s.waiting && 0 < milliseconds <= C.MAX_WIRE_TIMEOUT
    && var q := s.requests[id];
    && q.command == Some(0) && !q.completed && !q.invalidated && q.created == s.now
    && 0 <= q.lastWait <= milliseconds * C.MILLISECOND
  }

  lemma CreateStep(p: Params, s: State, id: L.Id)
    requires id !in s.commands
    ensures Next(p, s, Create(id, 0), Created(s, id))
  {
  }

  lemma WireTimeoutOf(milliseconds: nat)
    requires 0 < milliseconds <= C.MAX_WIRE_TIMEOUT
    ensures C.WireTimeout(milliseconds * C.MILLISECOND) == Ok(milliseconds)
  {
  }

  lemma SendStep(p: Params, s: State, id: L.Id, milliseconds: nat, copy: nat)
    requires Open(p, s, id, milliseconds) && Copy(s, id, milliseconds, copy) !in s.network
    ensures Next(p, s, Send(id, milliseconds * C.MILLISECOND, copy), Dispatched(s, id, milliseconds, copy))
  {
    WireTimeoutOf(milliseconds);
    hide C.WireTimeout;
  }

  lemma GiveUpStep(p: Params, s: State, id: L.Id)
    requires id in s.requests && id in s.waiting
    ensures Next(p, s, Learn(id, None), s.(waiting := s.waiting - {id}))
  {
    assert s.requests[id := s.requests[id]] == s.requests;
  }

  lemma RefuseStep(p: Params, s: State, m: Message)
    requires m in s.network && m.id in s.waiting && s.waiting[m.id].m == m && Timely(p, m)
    requires Answer(p, s, m) == L.Busy
    ensures Next(p, s, Deliver(m),
      s.(network := s.network - {m}, waiting := s.waiting[m.id := Round(m, Some(Refused))],
         book := s.book.(entries := L.Purged(s.book.entries, s.now))))
  {
    hide L.Purged;
  }

  lemma SettleStep(p: Params, s: State, id: L.Id)
    requires id in s.requests && id in s.waiting && s.waiting[id].told == Some(Refused)
    ensures Next(p, s, Learn(id, Some(REFUSAL)),
      s.(requests := s.requests[id := s.requests[id].(completed := true, command := None)],
         waiting := s.waiting - {id}))
  {
  }

  /** Nothing is on its way and `id` was never heard of. */
  ghost predicate Calm(s: State, id: L.Id) {
    && s.network == {} && id !in s.commands && id !in s.waiting && id !in s.starts && id !in s.book.entries
    && id !in s.requests
  }

  ghost predicate Crowded(p: Params, s: State) {
    s.book.inflight >= p.limits.maxInflight || |L.Purged(s.book.entries, s.now)| >= p.limits.maxCompleted
  }

  ghost function Sent(s: State, id: L.Id): State {
    var one := Dispatched(Created(s, id), id, 1, 0);
    Dispatched(one.(waiting := one.waiting - {id}), id, 1, 1)
  }

  ghost function Turned(s: State, id: L.Id): State {
    var t := Sent(s, id);
    t.(network := {Copy(s, id, 1, 0)}, waiting := t.waiting[id := Round(Copy(s, id, 1, 1), Some(Refused))],
       book := s.book.(entries := L.Purged(s.book.entries, s.now)))
  }

  /** A new request is created, waited on in vain and waited on again. */
  lemma SendsTwice(p: Params, ss: seq<State>, es: seq<Event>, id: L.Id) returns (ss': seq<State>, es': seq<Event>)
    requires IsPath(p, ss, es) && Calm(ss[|ss| - 1], id)
    ensures IsPath(p, ss', es') && ss <= ss' && es <= es' && ss'[|ss'| - 1] == Sent(ss[|ss| - 1], id)
  {
    var s := ss[|ss| - 1];
    var s1 := Created(s, id);
    var s2 := Dispatched(s1, id, 1, 0);
    var s3 := s2.(waiting := s2.waiting - {id});
    var s4 := Dispatched(s3, id, 1, 1);
    assert Open(p, s1, id, 1) && Open(p, s3, id, 1) && id in s2.waiting && id in s2.requests;
    hide Next, IsPath, Open;
    PathLengths(p, ss, es);
    CreateStep(p, s, id);
    SendStep(p, s1, id, 1, 0);
    GiveUpStep(p, s2, id);
    SendStep(p, s3, id, 1, 1);
    Extends(p, ss, es, Create(id, 0), s1);
    ss', es' := ss + [s1], es + [Create(id, 0)];
    Extends(p, ss', es', Send(id, C.MILLISECOND, 0), s2);
    ss', es' := ss' + [s2], es' + [Send(id, C.MILLISECOND, 0)];
    Extends(p, ss', es', Learn(id, None), s3);
    ss', es' := ss' + [s3], es' + [Learn(id, None)];
    Extends(p, ss', es', Send(id, C.MILLISECOND, 1), s4);
    ss', es' := ss' + [s4], es' + [Send(id, C.MILLISECOND, 1)];
  }

  ghost function Closed(s: State, id: L.Id): State {
    var t := Turned(s, id);
    t.(requests := t.requests[id := t.requests[id].(completed := true, command := None)], waiting := t.waiting - {id})
  }

  lemma NewCopyBusy(p: Params, s: State, id: L.Id)
    requires Calm(s, id) && Crowded(p, s)
    ensures Answer(p, Sent(s, id), Copy(s, id, 1, 1)) == L.Busy
  {
  }

  /** The second copy is refused and the refusal is heard, while the first is still on its way. */
  lemma RefusedHere(p: Params, s: State, id: L.Id)
    requires Calm(s, id) && Crowded(p, s) && p.maxTimeout > 0
    ensures Next(p, Sent(s, id), Deliver(Copy(s, id, 1, 1)), Turned(s, id))
    ensures Next(p, Turned(s, id), Learn(id, Some(REFUSAL)), Closed(s, id))
  {
    NewCopyBusy(p, s, id);
    var t, m := Sent(s, id), Copy(s, id, 1, 1);
    assert t.network - {m} == {Copy(s, id, 1, 0)};
    assert t.book == s.book && t.now == s.now;
    hide Next, Answer, L.Purged;
    RefuseStep(p, t, m);
    SettleStep(p, Turned(s, id), id);
  }

  lemma FirstHasRoom(p: Params, s: State, id: L.Id)
    requires Calm(s, id) && p.maxTimeout > 0 && p.limits.maxInflight > 0
    requires |L.Purged(s.book.entries, s.now + p.delay)| < p.limits.maxCompleted
    ensures var t, m := Closed(s, id), Copy(s, id, 1, 0);
      m in t.network && Timely(p, m) && !NoRoom(p, t, m) && Unstarted(t, id) && t.requests[id].completed
  {
    hide L.Purged;
    PurgedTwice(s.book.entries, s.now, s.now + p.delay);
    PurgeOnlyDrops(s.book.entries, s.now, id);
  }

  /** Nothing had started when it was settled; the last step takes up another copy than the one refused. */
  ghost predicate ByOlderCopy(ss: seq<State>, es: seq<Event>, i: nat, k: nat, id: L.Id)
    requires |ss| == |es| + 1 && i < k < |es| && es[i].Deliver?
  {
    && Starts(ss[k + 1], id) == 0 && id in ss[|es|].requests && ss[|es|].requests[id].completed
    && es[|es| - 1].Deliver? && es[|es| - 1].m.id == id && es[|es| - 1].m != es[i].m
    && es[|es| - 1].m in ss[i].network && Starts(ss[|es| - 1], id) == 0
  }

  lemma OvertakenFrom(p: Params, ss: seq<State>, es: seq<Event>, id: L.Id)
    returns (ss': seq<State>, es': seq<Event>, i: nat, k: nat)
    requires IsRun(p, ss, es) && Outlasts(p) && p.maxTimeout > 0 && p.limits.maxInflight > 0
    requires var s := ss[|ss| - 1];
      Calm(s, id) && Crowded(p, s) && |L.Purged(s.book.entries, s.now + p.delay)| < p.limits.maxCompleted
    ensures Overtaken(p, ss', es', i, k, id) && ByOlderCopy(ss', es', i, k, id)
  {
    hide Next, Answer, L.Purged, Inv, Calm, Crowded, NoRoom, Unstarted, Sent, Turned, Closed;
    var s, first, second := ss[|ss| - 1], Copy(ss[|ss| - 1], id, 1, 0), Copy(ss[|ss| - 1], id, 1, 1);
    ss', es' := SendsTwice(p, ss, es, id);
    RefusedHere(p, s, id);
    i, k := |es'|, |es'| + 1;
    Extends(p, ss', es', Deliver(second), Turned(s, id));
    ss', es' := ss' + [Turned(s, id)], es' + [Deliver(second)];
    Extends(p, ss', es', Learn(id, Some(REFUSAL)), Closed(s, id));
    ss', es' := ss' + [Closed(s, id)], es' + [Learn(id, Some(REFUSAL))];
    NewCopyBusy(p, s, id);
    WaitsForSecond(s, id);
    assert RefusedAndSettled(p, ss', es', i, k, id);
    RunKeepsInv(p, ss', es', k + 1);
    FirstHasRoom(p, s, id);
    UnstartedKnown(Closed(s, id), id);
    var before, events := ss', es';
    ss', es' := StartsLate(p, ss', es', first);
    assert ss'[..|before|] == before && es'[..|events|] == events;
  }

  lemma WaitsForSecond(s: State, id: L.Id)
    ensures id in Sent(s, id).waiting && Sent(s, id).waiting[id].m == Copy(s, id, 1, 1)
    ensures Copy(s, id, 1, 0) in Sent(s, id).network
  {
  }

  /** At time 0, `n` requests with names no longer than `n` are running and nothing is on its way. */
  ghost predicate Running(s: State, n: nat) {
    && s.now == 0 && s.network == {} && s.book.inflight == n && |s.book.entries| == n
    && s.requests.Keys == s.commands.Keys && s.starts.Keys <= s.commands.Keys && s.waiting.Keys <= s.commands.Keys
    && (forall id :: id in s.book.entries ==> s.book.entries[id].Pending? && id in s.commands)
    && (forall id :: id in s.commands ==> |id| <= n)
  }

  lemma NothingExpires(entries: map<L.Id, L.Entry>, now: L.Time)
    requires forall id :: id in entries ==> entries[id].Pending?
    ensures L.Purged(entries, now) == entries
  {
  }

  ghost function Begun(s: State, id: L.Id): State {
    var t, m := Dispatched(Created(s, id), id, 1, 0), Copy(s, id, 1, 0);
    t.(network := t.network - {m}, waiting := t.waiting[id := Round(m, Some(Joined))],
       book := L.Book(s.book.entries[id := L.Pending(0, true)], s.book.inflight + 1),
       starts := s.starts[id := Starts(s, id) + 1])
  }

  lemma ExecuteStep(p: Params, s: State, m: Message)
    requires m in s.network && Timely(p, m) && m.id in s.waiting && s.waiting[m.id].m == m
    requires m.id !in s.book.entries && L.Purged(s.book.entries, s.now) == s.book.entries
    requires s.book.inflight < p.limits.maxInflight && |s.book.entries| < p.limits.maxCompleted
    ensures Next(p, s, Deliver(m),
      s.(network := s.network - {m}, waiting := s.waiting[m.id := Round(m, Some(Joined))],
         book := L.Book(s.book.entries[m.id := L.Pending(m.command, true)], s.book.inflight + 1),
         starts := s.starts[m.id := Starts(s, m.id) + 1]))
  {
    hide L.Purged;
  }

  lemma BeginStep(p: Params, s: State, id: L.Id)
    requires L.Purged(s.book.entries, s.now) == s.book.entries && id !in s.book.entries && p.maxTimeout > 0
    requires s.book.inflight < p.limits.maxInflight && |s.book.entries| < p.limits.maxCompleted
    ensures Next(p, Dispatched(Created(s, id), id, 1, 0), Deliver(Copy(s, id, 1, 0)), Begun(s, id))
  {
    hide Next, L.Purged;
    ExecuteStep(p, Dispatched(Created(s, id), id, 1, 0), Copy(s, id, 1, 0));
  }

  lemma StillRunning(s: State, n: nat, id: L.Id)
    requires Running(s, n) && |id| == n + 1
    ensures Running(Begun(s, id), n + 1)
  {
    OneMoreKey(s.book.entries, id, L.Pending(0, true));
    assert Begun(s, id).network == {};
  }

  /** One more request is created, sent and begun. */
  lemma AddRunning(p: Params, ss: seq<State>, es: seq<Event>, n: nat)
    returns (ss': seq<State>, es': seq<Event>, id: L.Id)
    requires IsPath(p, ss, es) && Running(ss[|ss| - 1], n) && p.maxTimeout > 0
    requires n < p.limits.maxInflight && n < p.limits.maxCompleted
    ensures IsPath(p, ss', es') && ss <= ss' && es <= es'
    ensures ss'[|ss'| - 1] == Begun(ss[|ss| - 1], id) && Running(ss'[|ss'| - 1], n + 1)
  {
    var s := ss[|ss| - 1];
    id := NameUnused(s, n);
    NothingExpires(s.book.entries, s.now);
    assert |id| == n + 1 && s.book.inflight < p.limits.maxInflight && |s.book.entries| < p.limits.maxCompleted;
    hide Next, Running, IsPath, L.Purged;
    PathLengths(p, ss, es);
    var s1 := Created(s, id);
    var s2 := Dispatched(s1, id, 1, 0);
    CreateStep(p, s, id);
    SendStep(p, s1, id, 1, 0);
    BeginStep(p, s, id);
    StillRunning(s, n, id);
    hide Begun, Dispatched, Created;
    Extends(p, ss, es, Create(id, 0), s1);
    ss', es' := ss + [s1], es + [Create(id, 0)];
    Extends(p, ss', es', Send(id, C.MILLISECOND, 0), s2);
    ss', es' := ss' + [s2], es' + [Send(id, C.MILLISECOND, 0)];
    Extends(p, ss', es', Deliver(Copy(s, id, 1, 0)), Begun(s, id));
    ss', es' := ss' + [Begun(s, id)], es' + [Deliver(Copy(s, id, 1, 0))];
  }

  lemma StartRuns(p: Params)
    ensures IsRun(p, [START], []) && Running(START, 0)
  {
  }

  lemma {:induction false} FilledRun(p: Params, n: nat) returns (ss: seq<State>, es: seq<Event>)
    requires n <= p.limits.maxInflight && n <= p.limits.maxCompleted && p.maxTimeout > 0
    ensures IsRun(p, ss, es) && Running(ss[|ss| - 1], n)
  {
    hide Next, Running;
    if n == 0 {
      StartRuns(p);
      ss, es := [START], [];
    } else {
      ss, es := FilledRun(p, n - 1);
      var id;
      ss, es, id := AddRunning(p, ss, es, n - 1);
    }
  }

  lemma NameUnused(s: State, n: nat) returns (id: L.Id)
    requires Running(s, n)
    ensures Calm(s, id) && |id| == n + 1
  {
    id := seq(n + 1, _ => 'x');
  }

  /** Every slot is taken while the ledger has room: a completion makes way. */
  lemma OvertakenBySlot(p: Params) returns (ss: seq<State>, es: seq<Event>, i: nat, k: nat, id: L.Id)
    requires Outlasts(p) && Configured(p) && p.limits.maxInflight < p.limits.maxCompleted
    ensures Overtaken(p, ss, es, i, k, id) && ByOlderCopy(ss, es, i, k, id)
  {
    ss, es := FilledRun(p, p.limits.maxInflight);
    var s := ss[|ss| - 1];
    id := NameUnused(s, p.limits.maxInflight);
    NothingExpires(s.book.entries, s.now + p.delay);
    hide Next, L.Purged;
    ss, es, i, k := OvertakenFrom(p, ss, es, id);
  }

  lemma ExpiresSoon(p: Params, s: State, n: nat, id: L.Id) returns (other: L.Id, s1: State, s2: State)
    requires Running(s, n) && Calm(s, id) && n > 0 && p.limits.ttl > 0 && p.delay > 0
    ensures Next(p, s, Complete(other, L.Success(0)), s1) && Next(p, s1, Tick(p.limits.ttl - 1), s2)
    ensures Calm(s2, id)
    ensures |L.Purged(s2.book.entries, s2.now)| == n && |L.Purged(s2.book.entries, s2.now + p.delay)| < n
  {
    other :| other in s.book.entries;
    var done, ttl := L.Success(0), p.limits.ttl;
    var book := L.Finish(p.limits, s.book, 0, other, s.book.entries[other].command, true, done);
    OneGoes(s.book.entries, other, book.entries, ttl, p.delay);
    hide L.Purged;
    s1 := s.(book := book, waiting := Notified(s.waiting, other, done), results := s.results[other := done]);
    s2 := s1.(now := ttl - 1);
  }

  /** One of `n` running requests completed at time 0 and its result is about to expire. */
  lemma AlmostExpired(p: Params, ss: seq<State>, es: seq<Event>, n: nat)
    returns (ss': seq<State>, es': seq<Event>, id: L.Id)
    requires IsRun(p, ss, es) && Running(ss[|ss| - 1], n) && n > 0 && p.limits.ttl > 0 && p.delay > 0
    ensures IsRun(p, ss', es')
    ensures var t := ss'[|ss'| - 1];
      Calm(t, id) && |L.Purged(t.book.entries, t.now)| == n && |L.Purged(t.book.entries, t.now + p.delay)| < n
  {
    hide Next, Running, Calm, L.Purged;
    id := NameUnused(ss[|ss| - 1], n);
    var other, s1, s2 := ExpiresSoon(p, ss[|ss| - 1], n, id);
    var done, tick := Complete(other, L.Success(0)), Tick(p.limits.ttl - 1);
    Extends(p, ss, es, done, s1);
    Extends(p, ss + [s1], es + [done], tick, s2);
    ss', es' := ss + [s1] + [s2], es + [done] + [tick];
  }

  lemma OneGoes(entries: map<L.Id, L.Entry>, other: L.Id, after: map<L.Id, L.Entry>, ttl: nat, delay: nat)
    requires other in entries && (forall id :: id in entries ==> entries[id].Pending?) && ttl > 0 && delay > 0
    requires after.Keys == entries.Keys && after[other].Complete? && after[other].expires == ttl
    requires forall id :: id in entries && id != other ==> after[id] == entries[id]
    ensures |L.Purged(after, ttl - 1)| == |entries| && |L.Purged(after, ttl - 1 + delay)| < |entries|
  {
    assert L.Purged(after, ttl - 1).Keys == entries.Keys;
    assert L.Purged(after, ttl - 1 + delay).Keys == entries.Keys - {other};
  }

  /** The ledger is full although slots are free: an expiry makes way. */
  lemma OvertakenByExpiry(p: Params) returns (ss: seq<State>, es: seq<Event>, i: nat, k: nat, id: L.Id)
    requires Outlasts(p) && Configured(p) && p.limits.maxCompleted <= p.limits.maxInflight && p.delay > 0
    ensures Overtaken(p, ss, es, i, k, id) && ByOlderCopy(ss, es, i, k, id)
  {
    hide Next, L.Purged, Running, Calm;
    ss, es := FilledRun(p, p.limits.maxCompleted);
    ss, es, id := AlmostExpired(p, ss, es, p.limits.maxCompleted);
    ss, es, i, k := OvertakenFrom(p, ss, es, id);
  }

  /**
   A request refused for capacity and settled as not dispatched can be overtaken exactly when the ledger
   has more room than slots or a copy takes time to arrive.
   */
  lemma OvertakingExactly(p: Params)
    requires Outlasts(p) && Configured(p)
    ensures (exists ss, es, i, k, id :: Overtaken(p, ss, es, i, k, id)) <==>
      p.limits.maxInflight < p.limits.maxCompleted || p.delay > 0
  {
    hide Overtaken;
    if p.limits.maxInflight < p.limits.maxCompleted {
      var ss, es, i, k, id := OvertakenBySlot(p);
      assert Overtaken(p, ss, es, i, k, id);
    } else if p.delay > 0 {
      var ss, es, i, k, id := OvertakenByExpiry(p);
      assert Overtaken(p, ss, es, i, k, id);
    } else {
      forall ss, es, i, k, id ensures !Overtaken(p, ss, es, i, k, id) { NeverOvertaken(p, ss, es, i, k, id); }
    }
  }

  lemma RejectStep(p: Params, s: State, m: Message)
    requires m in s.network && !Timely(p, m) && m.id in s.waiting && s.waiting[m.id].m == m
    ensures Next(p, s, Deliver(m),
      s.(network := s.network - {m}, waiting := s.waiting[m.id := Round(m, Some(Refused))]))
  {
  }

  /** Step `i` refuses the copy the SDK waits for although its request has started. */
  ghost predicate FalselyRefused(p: Params, ss: seq<State>, es: seq<Event>, i: nat) {
    && IsRun(p, ss, es) && i < |es| && es[i].Deliver? && Verdict(p, ss[i], es[i].m) == Refused
    && es[i].m.id in ss[i].waiting && ss[i].waiting[es[i].m.id].m == es[i].m && Starts(ss[i], es[i].m.id) > 0
  }

  /** A running request waited on for too long is refused, and the SDK believes it. */
  lemma RefusedFrom(p: Params, ss: seq<State>, es: seq<Event>, id: L.Id)
    returns (ss': seq<State>, es': seq<Event>, i: nat)
    requires IsRun(p, ss, es) && Configured(p) && p.maxTimeout < C.MAX_WIRE_TIMEOUT
    requires var s := ss[|ss| - 1];
      && id in s.waiting && Open(p, s.(waiting := s.waiting - {id}), id, p.maxTimeout + 1) && s.network == {}
      && id in s.book.entries && s.book.entries[id].Pending? && Starts(s, id) > 0
    ensures FalselyRefused(p, ss', es', i) && i + 2 == |es'| && es'[i].m.id == id
    ensures var t := ss'[|ss'| - 1];
      && es'[i + 1] == Learn(id, Some(REFUSAL)) && id in t.requests && t.requests[id].completed
      && id in t.book.entries && t.book.entries[id].Pending?
  {
    var s, ms := ss[|ss| - 1], p.maxTimeout + 1;
    var s1 := s.(waiting := s.waiting - {id});
    var s2 := Dispatched(s1, id, ms, 1);
    var m := Copy(s1, id, ms, 1);
    var s3 := s2.(network := s2.network - {m}, waiting := s2.waiting[id := Round(m, Some(Refused))]);
    var s4 := s3.(requests := s3.requests[id := s3.requests[id].(completed := true, command := None)],
                  waiting := s3.waiting - {id});
    hide Next, Answer;
    GiveUpStep(p, s, id);
    SendStep(p, s1, id, ms, 1);
    RejectStep(p, s2, m);
    SettleStep(p, s3, id);
    Extends(p, ss, es, Learn(id, None), s1);
    ss', es' := ss + [s1], es + [Learn(id, None)];
    Extends(p, ss', es', Send(id, ms * C.MILLISECOND, 1), s2);
    ss', es' := ss' + [s2], es' + [Send(id, ms * C.MILLISECOND, 1)];
    i := |es'|;
    Extends(p, ss', es', Deliver(m), s3);
    ss', es' := ss' + [s3], es' + [Deliver(m)];
    Extends(p, ss', es', Learn(id, Some(REFUSAL)), s4);
    ss', es' := ss' + [s4], es' + [Learn(id, Some(REFUSAL))];
  }

  lemma BegunIsOpen(p: Params, id: L.Id, milliseconds: nat)
    requires 0 < milliseconds <= C.MAX_WIRE_TIMEOUT
    ensures var s := Begun(START, id);
      && id in s.waiting && Open(p, s.(waiting := s.waiting - {id}), id, milliseconds) && s.network == {}
      && id in s.book.entries && s.book.entries[id].Pending? && Starts(s, id) > 0
  {
  }

  /** Where the dispatcher allows shorter waits than the SDK, a running mutation is settled as not dispatched. */
  lemma RefusedWhileRunning(p: Params) returns (ss: seq<State>, es: seq<Event>, i: nat)
    requires Configured(p) && p.maxTimeout < C.MAX_WIRE_TIMEOUT
    ensures FalselyRefused(p, ss, es, i) && i + 2 == |es|
    ensures var id, t := es[i].m.id, ss[|ss| - 1];
      && es[i + 1] == Learn(id, Some(REFUSAL)) && id in t.requests && t.requests[id].completed
      && id in t.book.entries && t.book.entries[id].Pending?
  {
    hide Next, Running, Open, Begun;
    StartRuns(p);
    var id;
    ss, es, id := AddRunning(p, [START], [], 0);
    BegunIsOpen(p, id, p.maxTimeout + 1);
    ss, es, i := RefusedFrom(p, ss, es, id);
  }

  lemma TimelyRefusalTrue(p: Params, ss: seq<State>, es: seq<Event>, i: nat)
    requires Outlasts(p) && p.maxTimeout >= C.MAX_WIRE_TIMEOUT
    ensures !FalselyRefused(p, ss, es, i)
  {
    hide Next, Answer;
    if IsRun(p, ss, es) && i < |es| && es[i].Deliver? {
      assert StepAt(p, ss, es, i);
      DeliveredWasThere(p, ss[i], es[i].m, ss[i + 1]);
      RunKeepsInv(p, ss, es, i);
      AnswersAreTrue(p, ss, es, i, es[i].m);
      hide Inv, IsRun;
    }
  }

  /** A refusal always means that nothing was dispatched exactly when no SDK wait exceeds the dispatcher's bound. */
  lemma RefusalsTrueExactly(p: Params)
    requires Outlasts(p) && Configured(p)
    ensures (forall ss, es, i :: !FalselyRefused(p, ss, es, i)) <==> p.maxTimeout >= C.MAX_WIRE_TIMEOUT
  {
    hide FalselyRefused;
    if p.maxTimeout >= C.MAX_WIRE_TIMEOUT {
      forall ss, es, i ensures !FalselyRefused(p, ss, es, i) { TimelyRefusalTrue(p, ss, es, i); }
    } else {
      var ss, es, i := RefusedWhileRunning(p);
      assert FalselyRefused(p, ss, es, i);
    }
  }
}
