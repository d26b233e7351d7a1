/** Requests the SDK settled as not dispatched, and exactly when an older copy can still start them. */
module Overtaking {
  import opened Common
  import opened AtMostOnce
  import C = RetryClient
  import L = Ledger

  ghost predicate Unstarted(s: State, id: L.Id) {
    id in s.requests && id in s.commands && id !in s.starts && id !in s.book.entries
  }

  /** However late the copy arrives, enough entries are retained to refuse it. */
  ghost predicate NoRoom(p: Params, s: State, m: Message) {
    p.limits.maxInflight == 0 || |L.Purged(s.book.entries, m.sent + p.delay)| >= p.limits.maxCompleted
  }

  /** Some copy on its way is acceptable and may arrive once enough results have expired. */
  ghost predicate CanStillStart(p: Params, s: State, id: L.Id) {
    exists m :: m in s.network && m.id == id && Timely(p, m) && !NoRoom(p, s, m)
  }

  ghost predicate Blocked(p: Params, s: State, id: L.Id) {
    Unstarted(s, id) && !CanStillStart(p, s, id)
  }

  /** Until `d`, nothing retained till then goes away, and what completes now is retained longer. */
  lemma KeptStays(p: Params, s: State, e: Event, s': State, d: L.Time)
    requires Next(p, s, e, s') && s'.now <= d < s.now + p.limits.ttl
    ensures L.Purged(s.book.entries, d).Keys <= L.Purged(s'.book.entries, d).Keys
  {
    hide L.Admission, C.Attempt, Heard, Verdict, Notified;
  }

  lemma KeptLonger(entries: map<L.Id, L.Entry>, now: L.Time, d: L.Time)
    requires now <= d
    ensures |L.Purged(entries, d)| <= |L.Purged(entries, now)|
  {
    SubsetSize(L.Purged(entries, d).Keys, L.Purged(entries, now).Keys);
  }

  lemma NoRoomRefuses(p: Params, s: State, m: Message)
    requires L.Tidy(p.limits, s.book) && InTransit(p, s) && m in s.network && Unstarted(s, m.id) && NoRoom(p, s, m)
    ensures Answer(p, s, m) == L.Busy
  {
    KeptLonger(s.book.entries, s.now, m.sent + p.delay);
  }

  lemma NoRoomStays(p: Params, s: State, e: Event, s': State, m: Message)
    requires Known(s) && InTransit(p, s) && InTransit(p, s') && Outlasts(p) && Next(p, s, e, s')
    requires m in s.network && m in s'.network && NoRoom(p, s, m)
    ensures NoRoom(p, s', m)
  {
    var d := m.sent + p.delay;
    assert s.requests[m.id].created <= s.now;
    hide Next, L.Purged;
    KeptStays(p, s, e, s', d);
    SubsetSize(L.Purged(s.book.entries, d).Keys, L.Purged(s'.book.entries, d).Keys);
  }

  /** A step that is no new copy of `id` brings none, and starts none that is refused. */
  lemma StaysUnstarted(p: Params, s: State, e: Event, s': State, id: L.Id)
    requires Unstarted(s, id) && Next(p, s, e, s')
    requires e.Deliver? && e.m.id == id && Timely(p, e.m) ==> Answer(p, s, e.m) == L.Busy
    ensures Unstarted(s', id)
  {
    hide L.Admission, C.Attempt, Heard, Verdict, Notified;
  }

  lemma NoNewCopy(p: Params, s: State, e: Event, s': State, id: L.Id, m: Message)
    requires Next(p, s, e, s') && id in s.requests && m in s'.network && m.id == id
    requires s.requests[id].completed || id in s.waiting
    ensures m in s.network
  {
    hide L.Begin, Heard, Verdict;
  }

  lemma StepKeepsBlocked(p: Params, s: State, e: Event, s': State, id: L.Id)
    requires Inv(p, s) && Inv(p, s') && Outlasts(p) && Next(p, s, e, s') && Blocked(p, s, id)
    requires s.requests[id].completed || id in s.waiting
    ensures Blocked(p, s', id)
  {
    hide Next, Known, InTransit, Recorded, Forgotten, Once, Attended, L.Tidy, NoRoom, Timely, Answer, Unstarted;
    assert Unstarted(s', id) by {
      if e.Deliver? && e.m.id == id && Timely(p, e.m) {
        DeliveredWasThere(p, s, e.m, s');
        NoRoomRefuses(p, s, e.m);
      }
      StaysUnstarted(p, s, e, s', id);
    }
    forall m | m in s'.network && m.id == id && Timely(p, m) ensures NoRoom(p, s', m) {
      assert id in s.requests by { UnstartedKnown(s, id); }
      NoNewCopy(p, s, e, s', id, m);
      NoRoomStays(p, s, e, s', m);
    }
  }

  lemma DeliveredWasThere(p: Params, s: State, m: Message, s': State)
    requires Next(p, s, Deliver(m), s')
    ensures m in s.network
  {
  }

  lemma UnstartedKnown(s: State, id: L.Id)
    requires Unstarted(s, id)
    ensures id in s.requests && Starts(s, id) == 0
  {
  }

  lemma CompletedStays(p: Params, s: State, e: Event, s': State, id: L.Id)
    requires Next(p, s, e, s') && id in s.requests && s.requests[id].completed && s.requests.Keys == s.commands.Keys
    ensures id in s'.requests && s'.requests[id].completed
  {
    hide L.Begin, L.Finish, Heard, Verdict, Notified;
  }

  /** A settled request that is blocked stays so along every path. */
  lemma {:induction false} BlockedForGood(p: Params, ss: seq<State>, es: seq<Event>, f: nat, j: nat, id: L.Id)
    requires IsPath(p, ss, es) && f <= j < |ss| && Inv(p, ss[f]) && Outlasts(p)
    requires Blocked(p, ss[f], id) && ss[f].requests[id].completed
    ensures Inv(p, ss[j]) && Blocked(p, ss[j], id) && id in ss[j].requests && ss[j].requests[id].completed
    decreases j - f
  {
    hide Next, Known, InTransit, Recorded, Forgotten, Once, Attended, L.Tidy, CanStillStart;
    if f < j {
      BlockedForGood(p, ss, es, f, j - 1, id);
      assert StepAt(p, ss, es, j - 1);
      assert ss[j - 1].requests.Keys == ss[j - 1].commands.Keys by { KnownKeys(ss[j - 1]); }
      hide Inv, Blocked;
      StepKeepsInv(p, ss[j - 1], es[j - 1], ss[j]);
      StepKeepsBlocked(p, ss[j - 1], es[j - 1], ss[j], id);
      CompletedStays(p, ss[j - 1], es[j - 1], ss[j], id);
    }
  }

  ghost predicate Hears(e: Event, id: L.Id) {
    e.Learn? && e.id == id
  }

  lemma WaitStays(p: Params, s: State, e: Event, s': State, id: L.Id)
    requires Next(p, s, e, s') && id in s.waiting && !Hears(e, id)
    ensures id in s'.waiting
  {
    hide L.Begin, L.Finish, C.Attempt, C.Settle, Verdict;
  }

  /** So does one the SDK still waits for, until it hears something. */
  lemma {:induction false} BlockedWhileWaiting(p: Params, ss: seq<State>, es: seq<Event>, f: nat, j: nat, id: L.Id)
    requires IsPath(p, ss, es) && f <= j < |ss| && Inv(p, ss[f]) && Outlasts(p)
    requires Blocked(p, ss[f], id) && id in ss[f].waiting && forall n :: f <= n < j ==> !Hears(es[n], id)
    ensures Inv(p, ss[j]) && Blocked(p, ss[j], id) && id in ss[j].waiting
    decreases j - f
  {
    hide Next, Inv, CanStillStart;
    if f < j {
      BlockedWhileWaiting(p, ss, es, f, j - 1, id);
      assert StepAt(p, ss, es, j - 1);
      hide Blocked;
      StepKeepsInv(p, ss[j - 1], es[j - 1], ss[j]);
      StepKeepsBlocked(p, ss[j - 1], es[j - 1], ss[j], id);
      WaitStays(p, ss[j - 1], es[j - 1], ss[j], id);
    }
  }

  lemma KnownKeys(s: State)
    requires Known(s)
    ensures s.requests.Keys == s.commands.Keys
  {
  }

  lemma Extends(p: Params, ss: seq<State>, es: seq<Event>, e: Event, t: State)
    requires IsPath(p, ss, es) && Next(p, ss[|ss| - 1], e, t)
    ensures IsPath(p, ss + [t], es + [e]) && ss <= ss + [t] && es <= es + [e]
  {
    hide Next;
    forall i | 0 <= i < |es| + 1 ensures StepAt(p, ss + [t], es + [e], i) {
      if i < |es| { assert StepAt(p, ss, es, i); }
    }
  }

  /** Every other copy may get lost. */
  lemma {:induction false} OthersLost(p: Params, ss: seq<State>, es: seq<Event>, m: Message)
    returns (ss': seq<State>, es': seq<Event>)
    requires IsPath(p, ss, es) && m in ss[|ss| - 1].network
    ensures IsPath(p, ss', es') && ss <= ss' && es <= es'
    ensures ss'[|ss'| - 1] == ss[|ss| - 1].(network := {m})
    decreases |ss[|ss| - 1].network|
  {
    hide Next, IsPath;
    assert |ss| == |es| + 1 by { PathLengths(p, ss, es); }
    var s := ss[|ss| - 1];
    if s.network == {m} {
      ss', es' := ss, es;
    } else {
      var n :| n in s.network && n != m;
      var t := s.(network := s.network - {n});
      LoseStep(p, s, n, t);
      Extends(p, ss, es, Lose(n), t);
      ss', es' := OthersLost(p, ss + [t], es + [Lose(n)], m);
    }
  }

  lemma PathLengths(p: Params, ss: seq<State>, es: seq<Event>)
    requires IsPath(p, ss, es)
    ensures |ss| == |es| + 1
  {
  }

  lemma LoseStep(p: Params, s: State, n: Message, t: State)
    requires t == s.(network := s.network - {n})
    ensures Next(p, s, Lose(n), t)
  {
  }

  ghost predicate SlotFree(p: Params, s: State) {
    s.book.inflight < p.limits.maxInflight
  }

  /** A running request may complete, which frees its slot and retains as many entries as before. */
  lemma SlotFreed(p: Params, s: State, d: L.Time) returns (other: L.Id, t: State)
    requires L.Tidy(p.limits, s.book) && p.limits.maxInflight > 0 && !SlotFree(p, s) && d < s.now + p.limits.ttl
    ensures Next(p, s, Complete(other, L.Success(0)), t) && SlotFree(p, t)
    ensures t.book.entries.Keys == s.book.entries.Keys && t.now == s.now && t.network == s.network
    ensures t.starts == s.starts && t.requests == s.requests
    ensures |L.Purged(t.book.entries, d)| == |L.Purged(s.book.entries, d)|
  {
    other :| other in L.PendingIds(s.book.entries);
    var command := s.book.entries[other].command;
    var book := L.Finish(p.limits, s.book, s.now, other, command, true, L.Success(0));
    L.FinishTidy(p.limits, s.book, s.now, other, command, true, L.Success(0));
    t := s.(book := book, waiting := Notified(s.waiting, other, L.Success(0)),
            results := s.results[other := L.Success(0)]);
    hide Notified, L.Tidy;
    assert L.Purged(book.entries, d).Keys == L.Purged(s.book.entries, d).Keys;
  }

  lemma TickStep(p: Params, s: State, m: Message, now: L.Time)
    requires s.network <= {m} && s.now <= now <= m.sent + p.delay
    ensures Next(p, s, Tick(now), s.(now := now))
  {
  }

  lemma StartStep(p: Params, s: State, m: Message) returns (t: State)
    requires m in s.network && Timely(p, m) && m.id !in s.book.entries && SlotFree(p, s)
    requires |L.Purged(s.book.entries, s.now)| < p.limits.maxCompleted
    ensures Next(p, s, Deliver(m), t) && Starts(t, m.id) == Starts(s, m.id) + 1 && t.requests == s.requests
  {
    assert Answer(p, s, m) == L.Execute;
    t := s.(network := s.network - {m}, waiting := Heard(s.waiting, m, Joined),
            book := L.Begin(p.limits, s.book, s.now, m.id, m.command, true),
            starts := s.starts[m.id := Starts(s, m.id) + 1]);
  }

  lemma StartsOnTime(p: Params, ss: seq<State>, es: seq<Event>, m: Message) returns (ss': seq<State>, es': seq<Event>)
    requires IsPath(p, ss, es)
    requires var s := ss[|ss| - 1];
      && s.network == {m} && Timely(p, m) && s.now <= m.sent + p.delay && m.id !in s.book.entries && SlotFree(p, s)
      && |L.Purged(s.book.entries, m.sent + p.delay)| < p.limits.maxCompleted
    ensures IsPath(p, ss', es') && ss <= ss' && es <= es' && |es'| > 0 && es'[|es'| - 1] == Deliver(m)
    ensures var s, t := ss[|ss| - 1], ss'[|ss'| - 1];
      && Starts(t, m.id) == Starts(s, m.id) + 1 && t.requests == s.requests
      && Starts(ss'[|es'| - 1], m.id) == Starts(s, m.id)
  {
    hide Next, L.Purged, IsPath;
    PathLengths(p, ss, es);
    var s := ss[|ss| - 1];
    var d := m.sent + p.delay;
    var s1 := s.(now := d);
    TickStep(p, s, m, d);
    var s2 := StartStep(p, s1, m);
    Extends(p, ss, es, Tick(d), s1);
    Extends(p, ss + [s1], es + [Tick(d)], Deliver(m), s2);
    ss', es' := ss + [s1] + [s2], es + [Tick(d)] + [Deliver(m)];
  }

  lemma CopyInTime(p: Params, s: State, m: Message)
    requires Inv(p, s) && Outlasts(p) && m in s.network
    ensures s.now <= m.sent + p.delay < s.now + p.limits.ttl && L.Tidy(p.limits, s.book)
  {
    hide L.Tidy, Recorded, Forgotten, Once, Attended;
    assert s.requests[m.id].created <= s.now;
  }

  /** A copy with room left starts its request: lose the others, complete a running request if need be, and wait. */
  lemma StartsLate(p: Params, ss: seq<State>, es: seq<Event>, m: Message) returns (ss': seq<State>, es': seq<Event>)
    requires IsPath(p, ss, es) && Outlasts(p)
    requires var s := ss[|ss| - 1];
      && Inv(p, s) && m in s.network && Timely(p, m) && !NoRoom(p, s, m) && Unstarted(s, m.id)
    ensures IsPath(p, ss', es') && ss <= ss' && es <= es' && |es'| > 0 && es'[|es'| - 1] == Deliver(m)
    ensures var s, t := ss[|ss| - 1], ss'[|ss'| - 1];
      Starts(t, m.id) == 1 && t.requests == s.requests && Starts(ss'[|es'| - 1], m.id) == 0
  {
    hide Next, L.Purged, IsPath, Inv, L.Tidy, SlotFree;
    PathLengths(p, ss, es);
    var s, d := ss[|ss| - 1], m.sent + p.delay;
    CopyInTime(p, s, m);
    ss', es' := OthersLost(p, ss, es, m);
    PathLengths(p, ss', es');
    var s1 := ss'[|ss'| - 1];
    if !SlotFree(p, s1) {
      var other, t := SlotFreed(p, s1, d);
      Extends(p, ss', es', Complete(other, L.Success(0)), t);
      ss', es' := ss' + [t], es' + [Complete(other, L.Success(0))];
    }
    ss', es' := StartsOnTime(p, ss', es', m);
  }

  ghost predicate Starting(p: Params, s: State, id: L.Id, ss: seq<State>, es: seq<Event>) {
    IsPath(p, ss, es) && ss[0] == s && Starts(ss[|ss| - 1], id) > 0
  }

  /**
   A settled request that never started can still start exactly when some acceptable copy of it is on
   its way and may arrive after enough results have expired, whatever it was refused for.
   */
  lemma SettledStartsExactly(p: Params, s: State, id: L.Id)
    requires Inv(p, s) && Outlasts(p) && Unstarted(s, id) && s.requests[id].completed
    ensures CanStillStart(p, s, id) <==> exists ss, es :: Starting(p, s, id, ss, es)
  {
    if CanStillStart(p, s, id) {
      var m :| m in s.network && m.id == id && Timely(p, m) && !NoRoom(p, s, m);
      assert IsPath(p, [s], []);
      hide Inv, Next, NoRoom;
      var ss, es := StartsLate(p, [s], [], m);
      assert Starting(p, s, id, ss, es);
    } else {
      hide Inv, Next, CanStillStart;
      forall ss, es | IsPath(p, ss, es) && ss[0] == s ensures !Starting(p, s, id, ss, es) {
        BlockedForGood(p, ss, es, 0, |ss| - 1, id);
      }
    }
  }

  /**
   Step `i` refuses the copy the SDK waits for, because the ledger has no slot or no room, and step
   `k` is where the SDK hears so and settles the request.
   */
  ghost predicate RefusedAndSettled(p: Params, ss: seq<State>, es: seq<Event>, i: nat, k: nat, id: L.Id)
    requires |ss| == |es| + 1 && i < k < |es|
  {
    && es[i].Deliver? && es[i].m.id == id && Timely(p, es[i].m) && Answer(p, ss[i], es[i].m) == L.Busy
    && id in ss[i].waiting && ss[i].waiting[id].m == es[i].m
    && (forall n :: i < n < k ==> !Hears(es[n], id))
    && Hears(es[k], id) && es[k].reply.Some?
    && es[k].reply.value.Failure? && es[k].reply.value.status == L.NotDispatched
  }

  lemma BusyUnstarted(p: Params, s: State, m: Message, s': State)
    requires Inv(p, s) && Outlasts(p) && Next(p, s, Deliver(m), s') && Answer(p, s, m) == L.Busy
    ensures Unstarted(s, m.id) && Unstarted(s', m.id)
  {
    NoEntryMeansFirst(p, s, m);
    hide Recorded, Forgotten, Once, Attended, L.Tidy;
  }

  lemma SettlesHere(p: Params, s: State, e: Event, s': State, id: L.Id)
    requires Next(p, s, e, s') && Hears(e, id) && C.Settles(e.reply)
    ensures id in s'.requests && s'.requests[id].completed
  {
  }

  /** A request refused and settled never executes afterwards, if at its refusal no copy could still start it. */
  lemma RefusedForGood(p: Params, ss: seq<State>, es: seq<Event>, i: nat, k: nat, j: nat, id: L.Id)
    requires IsRun(p, ss, es) && Outlasts(p) && i < k < |es| && j < |ss| && RefusedAndSettled(p, ss, es, i, k, id)
    requires !CanStillStart(p, ss[i + 1], id)
    ensures Starts(ss[j], id) == 0
  {
    hide Inv, Answer, Next, CanStillStart, Timely;
    assert StepAt(p, ss, es, i) && StepAt(p, ss, es, k);
    RunKeepsInv(p, ss, es, i);
    RunKeepsInv(p, ss, es, i + 1);
    BusyUnstarted(p, ss[i], es[i].m, ss[i + 1]);
    WaitStays(p, ss[i], es[i], ss[i + 1], id);
    BlockedWhileWaiting(p, ss, es, i + 1, k, id);
    RunKeepsInv(p, ss, es, k + 1);
    StepKeepsBlocked(p, ss[k], es[k], ss[k + 1], id);
    SettlesHere(p, ss[k], es[k], ss[k + 1], id);
    if j > k {
      BlockedForGood(p, ss, es, k + 1, j, id);
    } else {
      NotStartedBefore(p, ss, es, j, k, id);
    }
  }

  lemma StartsGrow(p: Params, s: State, e: Event, s': State, id: L.Id)
    requires Next(p, s, e, s')
    ensures Starts(s, id) <= Starts(s', id)
  {
    hide L.Begin, L.Finish, L.Admission, C.Attempt, Heard, Verdict, Notified;
  }

  lemma {:induction false} NotStartedBefore(p: Params, ss: seq<State>, es: seq<Event>, j: nat, k: nat, id: L.Id)
    requires IsPath(p, ss, es) && j <= k < |ss| && Starts(ss[k], id) == 0
    ensures Starts(ss[j], id) == 0
    decreases k - j
  {
    hide Next;
    if j < k {
      assert StepAt(p, ss, es, k - 1);
      StartsGrow(p, ss[k - 1], es[k - 1], ss[k], id);
      NotStartedBefore(p, ss, es, j, k - 1, id);
    }
  }

  lemma PurgedTwice(entries: map<L.Id, L.Entry>, now: L.Time, d: L.Time)
    requires now <= d
    ensures L.Purged(L.Purged(entries, now), d) == L.Purged(entries, d)
  {
  }

  /** A request refused for capacity and settled, which an older copy of it then starts. */
  ghost predicate Overtaken(p: Params, ss: seq<State>, es: seq<Event>, i: nat, k: nat, id: L.Id) {
    && IsRun(p, ss, es) && i < k < |es| && RefusedAndSettled(p, ss, es, i, k, id)
    && Starts(ss[|ss| - 1], id) > 0
  }

  /** With no more slots than room, a refusal means a full ledger. */
  lemma BusyIsFull(p: Params, s: State, m: Message)
    requires L.Tidy(p.limits, s.book) && p.limits.maxCompleted <= p.limits.maxInflight && Answer(p, s, m) == L.Busy
    ensures |L.Purged(s.book.entries, s.now)| >= p.limits.maxCompleted
  {
    L.PurgeKeepsPending(s.book.entries, s.now);
    SubsetSize(L.PendingIds(s.book.entries), L.Purged(s.book.entries, s.now).Keys);
  }

  lemma FullStaysFull(p: Params, s: State, m: Message, s': State)
    requires Inv(p, s) && Inv(p, s') && Next(p, s, Deliver(m), s') && Timely(p, m) && Answer(p, s, m) == L.Busy
    requires p.limits.maxCompleted <= p.limits.maxInflight && p.delay == 0
    ensures !CanStillStart(p, s', m.id)
  {
    BusyIsFull(p, s, m);
    PurgedTwice(s.book.entries, s.now, s.now);
    hide L.Purged, L.Tidy, Recorded, Forgotten, Once, Attended, Known;
    forall n | n in s'.network && n.id == m.id ensures NoRoom(p, s', n) {
      assert n.sent == s'.now == s.now;
    }
  }

  lemma NeverOvertaken(p: Params, ss: seq<State>, es: seq<Event>, i: nat, k: nat, id: L.Id)
    requires Outlasts(p) && p.limits.maxCompleted <= p.limits.maxInflight && p.delay == 0
    ensures !Overtaken(p, ss, es, i, k, id)
  {
    hide Next, CanStillStart, Inv, Answer, Timely;
    if IsRun(p, ss, es) && i < k < |es| && RefusedAndSettled(p, ss, es, i, k, id) {
      assert StepAt(p, ss, es, i);
      RunKeepsInv(p, ss, es, i);
      RunKeepsInv(p, ss, es, i + 1);
      FullStaysFull(p, ss[i], es[i].m, ss[i + 1]);
      RefusedForGood(p, ss, es, i, k, |ss| - 1, id);
    }
  }
}
