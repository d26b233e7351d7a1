/**
 SDK requests, a lossy and reordering local transport, and the dispatcher's ledger as one machine.
 A copy of a request may be lost at any time, and is otherwise taken up by the dispatcher within
 `delay` of being sent, also after the SDK stopped waiting for it. Each copy has its own connection,
 so the SDK hears only about the copy it sent last. All times are read from one clock.
 */
module AtMostOnce {
  import opened Common
  import C = RetryClient
  import L = Ledger

  datatype Params = Params(limits: L.Limits, maxTimeout: nat, horizon: nat, delay: nat)

  datatype Message = Message(id: L.Id, command: L.Command, timeout: nat, sent: L.Time, copy: nat)

  /** What a copy was told: refused before admission, joined to an execution, or its outcome. */
  datatype Told = Refused | Joined | Answered(outcome: L.Outcome)

  /** A round trip under the request's lock: the copy sent, and what came back so far. */
  datatype Round = Round(m: Message, told: Option<Told>)

  /** `starts`, `results` and `commands` are history: executions begun, outcomes reached, and what an identity means. */
  datatype State = State(
    now: L.Time, book: L.Book, requests: map<L.Id, C.Request>, waiting: map<L.Id, Round>, network: set<Message>,
    starts: map<L.Id, nat>, results: map<L.Id, L.Outcome>, commands: map<L.Id, L.Command>)

  datatype Event =
    | Tick(now: L.Time)
    | Create(id: L.Id, command: L.Command)
    | Send(id: L.Id, timeout: int, copy: nat)
    | Lose(m: Message)
    | Deliver(m: Message)
    | Complete(id: L.Id, outcome: L.Outcome)
    | Reconcile(id: L.Id)
    | Learn(id: L.Id, reply: Option<L.Outcome>)

  function Starts(s: State, id: L.Id): nat {
    if id in s.starts then s.starts[id] else 0
  }

  function Answer(p: Params, s: State, m: Message): L.Begun {
    L.Admission(p.limits, s.book, s.now, m.id, m.command)
  }

  /** The dispatcher takes up no copy that asks for more than its longest wait. */
  predicate Timely(p: Params, m: Message) {
    0 < m.timeout <= p.maxTimeout
  }

  function Verdict(p: Params, s: State, m: Message): Told {
    if !Timely(p, m) then Refused else
    match Answer(p, s, m)
    case Busy => Refused
    case Conflict => Refused
    case Replay(outcome) => Answered(outcome)
    case Wait => Joined
    case Execute => Joined
  }

  /** The SDK hears what the copy it waits for was told. */
  function Heard(waiting: map<L.Id, Round>, m: Message, told: Told): map<L.Id, Round> {
    if m.id in waiting && waiting[m.id].m == m then waiting[m.id := Round(m, Some(told))] else waiting
  }

  /** Whoever joined an execution is told its outcome. */
  function Notified(waiting: map<L.Id, Round>, id: L.Id, outcome: L.Outcome): map<L.Id, Round> {
    if id in waiting && waiting[id].told == Some(Joined)
    then waiting[id := Round(waiting[id].m, Some(Answered(outcome)))] else waiting
  }

  /** A reply may always get lost. A refusal says not dispatched, and a wait that ran out says indeterminate. */
  predicate MayHear(told: Option<Told>, reply: Option<L.Outcome>) {
    reply.None? ||
    (told.Some? &&
     match told.value
     case Refused => reply.value.Failure? && reply.value.status == L.NotDispatched
     case Joined => reply.value.Failure? && reply.value.status == L.Indeterminate
     case Answered(outcome) => reply.value == outcome)
  }

  ghost predicate Sends(p: Params, s: State, id: L.Id, timeout: int, copy: nat, s': State) {
    && id in s.requests && id !in s.waiting
    && var q := s.requests[id];
    && var tried := C.Attempt(q, s.now, p.horizon, timeout);
    && if tried.1.Ok? && q.command.Some? then
         var m := Message(id, q.command.value, tried.1.value, s.now, copy);
         && m !in s.network
         && s' == s.(requests := s.requests[id := tried.0], network := s.network + {m},
                     waiting := s.waiting[id := Round(m, None)])
       else s' == s.(requests := s.requests[id := tried.0])
  }

  ghost predicate Delivers(p: Params, s: State, m: Message, s': State) {
    && m in s.network
    && var heard := s.(network := s.network - {m}, waiting := Heard(s.waiting, m, Verdict(p, s, m)));
    && s' == if !Timely(p, m) then heard else
         heard.(book := L.Begin(p.limits, s.book, s.now, m.id, m.command, true),
                starts := if Answer(p, s, m) == L.Execute then s.starts[m.id := Starts(s, m.id) + 1] else s.starts)
  }

  ghost predicate Completes(p: Params, s: State, id: L.Id, outcome: L.Outcome, s': State) {
    && id in s.book.entries && s.book.entries[id].Pending?
    && s' == s.(book := L.Finish(p.limits, s.book, s.now, id, s.book.entries[id].command, true, outcome),
                waiting := Notified(s.waiting, id, outcome), results := s.results[id := outcome])
  }

  ghost predicate Learns(s: State, id: L.Id, reply: Option<L.Outcome>, s': State) {
    && id in s.requests && id in s.waiting && MayHear(s.waiting[id].told, reply)
    && s' == s.(requests := s.requests[id := C.Settle(s.requests[id], reply)], waiting := s.waiting - {id})
  }

  ghost predicate Next(p: Params, s: State, e: Event, s': State) {
    match e
    case Tick(now) =>
      && s.now <= now && (forall m :: m in s.network ==> now <= m.sent + p.delay)
      && s' == s.(now := now)
    case Create(id, command) =>
      && id !in s.commands
      && s' == s.(requests := s.requests[id := C.Request(Some(command), s.now, false, false, 0)],
                  commands := s.commands[id := command])
    case Send(id, timeout, copy) => Sends(p, s, id, timeout, copy, s')
    case Lose(m) => s' == s.(network := s.network - {m})
    case Deliver(m) => Delivers(p, s, m, s')
    case Complete(id, outcome) => Completes(p, s, id, outcome, s')
    case Reconcile(id) =>
      s' == s.(book := s.book.(entries := L.Purged(s.book.entries, s.now)))
    case Learn(id, reply) => Learns(s, id, reply, s')
  }

  const START := State(0, L.Book(map[], 0), map[], map[], {}, map[], map[], map[])

  ghost predicate Known(s: State) {
    && s.requests.Keys == s.commands.Keys
    && forall id :: id in s.requests ==>
         && s.requests[id].created <= s.now && C.Armed(s.requests[id])
         && (s.requests[id].command.Some? ==> s.requests[id].command == Some(s.commands[id]))
  }

  ghost predicate InTransit(p: Params, s: State) {
    forall m :: m in s.network ==>
      && m.id in s.requests && m.id in s.commands && m.command == s.commands[m.id]
      && 0 < m.timeout <= C.MAX_WIRE_TIMEOUT
      && s.requests[m.id].created <= m.sent <= s.requests[m.id].created + p.horizon
      && m.sent <= s.now <= m.sent + p.delay
  }

  /** An entry stands for its identity's only execution, and a result for its only outcome. */
  ghost predicate Recorded(p: Params, s: State) {
    forall id :: id in s.book.entries ==>
      && id in s.requests && id in s.commands
      && s.book.entries[id].command == s.commands[id] && s.book.entries[id].isMutation
      && Starts(s, id) == 1 && (s.book.entries[id].Pending? ==> id !in s.results)
      && (s.book.entries[id].Complete? ==>
            && id in s.results && s.results[id] == s.book.entries[id].outcome
            && s.requests[id].created + p.limits.ttl <= s.book.entries[id].expires)
  }

  /** An execution that the ledger forgot is older than the retention time. */
  ghost predicate Forgotten(p: Params, s: State) {
    forall id :: id in s.starts && id !in s.book.entries ==>
      id in s.requests && s.requests[id].created + p.limits.ttl <= s.now
  }

  ghost predicate Once(s: State) {
    && (forall id :: id in s.starts ==> s.starts[id] == 1)
    && s.results.Keys <= s.starts.Keys
  }

  /** What the SDK was told still holds: a joined execution is running, and an outcome is the one reached. */
  ghost predicate Attended(s: State) {
    forall id :: id in s.waiting ==>
      && id in s.requests && id in s.commands && s.waiting[id].m.id == id
      && (s.waiting[id].told == Some(Joined) ==> id in s.book.entries && s.book.entries[id].Pending?)
      && (s.waiting[id].told.Some? && s.waiting[id].told.value.Answered? ==>
            id in s.results && s.results[id] == s.waiting[id].told.value.outcome)
  }

  ghost predicate Inv(p: Params, s: State) {
    && L.Tidy(p.limits, s.book) && Known(s) && InTransit(p, s) && Recorded(p, s) && Forgotten(p, s) && Once(s)
    && Attended(s)
  }

  /** The retention time outlasts every copy of a request. */
  predicate Outlasts(p: Params) {
    p.horizon + p.delay < p.limits.ttl
  }

  lemma StaysArmed(q: C.Request, now: L.Time, horizon: nat, timeout: int, reply: Option<L.Outcome>)
    requires C.Armed(q)
    ensures var q' := C.Attempt(q, now, horizon, timeout).0;
      C.Armed(q') && q'.created == q.created && (q'.command.Some? ==> q'.command == q.command)
    ensures var q' := C.Settle(q, reply);
      C.Armed(q') && q'.created == q.created && (q'.command.Some? ==> q'.command == q.command)
  {
  }

  lemma FreshArmed(command: L.Command, now: L.Time)
    ensures C.Armed(C.Request(Some(command), now, false, false, 0))
  {
  }

  lemma KeepsRequests(p: Params, s: State, e: Event, s': State)
    requires Next(p, s, e, s') && (e.Deliver? || e.Complete?)
    ensures s'.requests == s.requests && s'.commands == s.commands && s'.now == s.now
  {
  }

  lemma RequestKnown(s: State, s': State, id: L.Id, q: C.Request)
    requires Known(s) && id in s.requests && s'.requests == s.requests[id := q]
    requires s'.commands == s.commands && s'.now == s.now && C.Armed(q) && q.created == s.requests[id].created
    requires q.command.Some? ==> q.command == s.requests[id].command
    ensures Known(s')
  {
    hide C.Armed;
  }

  lemma StepKnown(p: Params, s: State, e: Event, s': State)
    requires Known(s) && Next(p, s, e, s')
    ensures Known(s')
  {
    hide L.Begin, L.Finish, L.Purged, L.Admission, C.Attempt, C.Settle, C.Armed, Delivers, Completes, MayHear;
    if e.Deliver? || e.Complete? {
      KeepsRequests(p, s, e, s');
    } else if e.Create? {
      FreshArmed(e.command, s.now);
    } else if e.Send? {
      assert C.Armed(s.requests[e.id]);
      StaysArmed(s.requests[e.id], s.now, p.horizon, e.timeout, None);
      RequestKnown(s, s', e.id, C.Attempt(s.requests[e.id], s.now, p.horizon, e.timeout).0);
    } else if e.Learn? {
      assert C.Armed(s.requests[e.id]);
      StaysArmed(s.requests[e.id], s.now, p.horizon, 0, e.reply);
      RequestKnown(s, s', e.id, C.Settle(s.requests[e.id], e.reply));
    }
  }

  lemma StepInTransit(p: Params, s: State, e: Event, s': State)
    requires Known(s) && InTransit(p, s) && Next(p, s, e, s')
    ensures InTransit(p, s')
  {
    hide L.Begin, L.Finish, L.Purged, L.Admission, Heard, Verdict, Notified, MayHear;
    if e.Send? {
      SendInTransit(p, s, e.id, e.timeout, e.copy, s');
    } else {
      hide Known;
      assert s'.network <= s.network;
    }
  }

  lemma SendInTransit(p: Params, s: State, id: L.Id, timeout: int, copy: nat, s': State)
    requires Known(s) && InTransit(p, s) && Sends(p, s, id, timeout, copy, s')
    ensures InTransit(p, s')
  {
    hide C.Attempt, C.Armed;
    AttemptInTime(s.requests[id], s.now, p.horizon, timeout);
  }

  lemma AttemptInTime(q: C.Request, now: L.Time, horizon: nat, timeout: int)
    ensures var tried := C.Attempt(q, now, horizon, timeout);
      && tried.0.created == q.created
      && (tried.1.Ok? ==> now <= q.created + horizon && 0 < tried.1.value <= C.MAX_WIRE_TIMEOUT)
  {
  }

  /** While results outlast copies, a copy that finds no entry is the first of its identity to arrive. */
  lemma NoEntryMeansFirst(p: Params, s: State, m: Message)
    requires InTransit(p, s) && Recorded(p, s) && Forgotten(p, s) && Outlasts(p) && m in s.network
    requires m.id !in L.Purged(s.book.entries, s.now)
    ensures m.id !in s.starts && m.id !in s.book.entries
  {
  }

  lemma DeliverRecords(p: Params, s: State, m: Message, s': State)
    requires Inv(p, s) && Outlasts(p) && Delivers(p, s, m, s')
    ensures Recorded(p, s') && Forgotten(p, s') && Once(s')
  {
    if Timely(p, m) && Answer(p, s, m) == L.Execute {
      NoEntryMeansFirst(p, s, m);
      ExecuteRecords(p, s, m, s');
    } else {
      DeliverIsQuiet(p, s, m, s');
      hide Known, InTransit, Recorded, Forgotten, Once, Attended, Quiet, Answer, Delivers;
      QuietRecords(p, s, s');
    }
  }

  lemma DeliverIsQuiet(p: Params, s: State, m: Message, s': State)
    requires Delivers(p, s, m, s') && (Timely(p, m) ==> Answer(p, s, m) != L.Execute)
    ensures Quiet(s, s')
  {
    hide L.Admission, L.Purged;
  }

  lemma ExecuteRecords(p: Params, s: State, m: Message, s': State)
    requires m.id in s.requests && m.id in s.commands && m.command == s.commands[m.id]
    requires Recorded(p, s) && Forgotten(p, s) && Once(s)
    requires Delivers(p, s, m, s') && Timely(p, m) && Answer(p, s, m) == L.Execute
    requires m.id !in s.starts && m.id !in s.book.entries
    ensures Recorded(p, s') && Forgotten(p, s') && Once(s')
  {
    hide Delivers, Answer, L.Purged, Recorded, Forgotten, Once, Quiet;
    ExecuteChanges(p, s, m, s');
    var purged := s.(book := s.book.(entries := L.Purged(s.book.entries, s.now)));
    assert Quiet(s, purged) by { PurgeIsQuiet(s); }
    QuietRecords(p, s, purged);
    assert m.id !in purged.book.entries by { PurgeOnlyDrops(s.book.entries, s.now, m.id); }
    EntryRecords(p, purged, m, s');
  }

  lemma PurgeIsQuiet(s: State)
    ensures Quiet(s, s.(book := s.book.(entries := L.Purged(s.book.entries, s.now))))
  {
    hide L.Purged;
  }

  lemma PurgeOnlyDrops(entries: map<L.Id, L.Entry>, now: L.Time, id: L.Id)
    requires id !in entries
    ensures id !in L.Purged(entries, now)
  {
  }

  lemma EntryRecords(p: Params, s: State, m: Message, s': State)
    requires m.id in s.requests && m.id in s.commands && m.command == s.commands[m.id]
    requires Recorded(p, s) && Forgotten(p, s) && Once(s) && m.id !in s.starts && m.id !in s.book.entries
    requires s'.book.entries == s.book.entries[m.id := L.Pending(m.command, true)]
    requires s'.starts == s.starts[m.id := 1] && s'.results == s.results
    requires s'.now == s.now && s'.requests == s.requests && s'.commands == s.commands
    ensures Recorded(p, s') && Forgotten(p, s') && Once(s')
  {
  }

  lemma ExecuteChanges(p: Params, s: State, m: Message, s': State)
    requires Delivers(p, s, m, s') && Timely(p, m) && Answer(p, s, m) == L.Execute
    ensures s'.book.entries == L.Purged(s.book.entries, s.now)[m.id := L.Pending(m.command, true)]
    ensures s'.starts == s.starts[m.id := Starts(s, m.id) + 1] && s'.results == s.results
    ensures s'.now == s.now && s'.requests == s.requests && s'.commands == s.commands
  {
    hide L.Purged, Heard, Verdict;
  }

  lemma CompleteRecords(p: Params, s: State, id: L.Id, outcome: L.Outcome, s': State)
    requires Known(s) && Recorded(p, s) && Forgotten(p, s) && Once(s) && Completes(p, s, id, outcome, s')
    ensures Recorded(p, s') && Forgotten(p, s') && Once(s')
  {
  }

  /** What a step that neither begins nor completes an execution leaves alone. */
  ghost predicate Quiet(s: State, s': State) {
    && s'.starts == s.starts && s'.results == s.results && s.now <= s'.now
    && (s'.book.entries == s.book.entries || s'.book.entries == L.Purged(s.book.entries, s.now))
    && (forall id :: id in s.requests ==> id in s'.requests && s'.requests[id].created == s.requests[id].created)
    && (forall id :: id in s.commands ==> id in s'.commands && s'.commands[id] == s.commands[id])
  }

  lemma QuietStep(p: Params, s: State, e: Event, s': State)
    requires Next(p, s, e, s') && s.requests.Keys == s.commands.Keys && !e.Deliver? && !e.Complete?
    ensures Quiet(s, s')
  {
    hide L.Purged;
  }

  lemma QuietRecords(p: Params, s: State, s': State)
    requires Recorded(p, s) && Forgotten(p, s) && Once(s) && Quiet(s, s')
    ensures Recorded(p, s') && Forgotten(p, s') && Once(s')
  {
  }

  lemma QuietStepRecords(p: Params, s: State, e: Event, s': State)
    requires Known(s) && Recorded(p, s) && Forgotten(p, s) && Once(s) && Next(p, s, e, s')
    requires !e.Deliver? && !e.Complete?
    ensures Recorded(p, s') && Forgotten(p, s') && Once(s')
  {
    QuietStep(p, s, e, s');
    hide Next, Recorded, Forgotten, Once, Quiet;
    QuietRecords(p, s, s');
  }

  lemma StepTidy(p: Params, s: State, e: Event, s': State)
    requires L.Tidy(p.limits, s.book) && Next(p, s, e, s')
    ensures L.Tidy(p.limits, s'.book)
  {
    hide L.Tidy, L.Begin, L.Finish, L.Purged, L.Admission;
    match e
    case Deliver(m) => L.BeginTidy(p.limits, s.book, s.now, m.id, m.command, true);
    case Complete(id, outcome) =>
      L.FinishTidy(p.limits, s.book, s.now, id, s.book.entries[id].command, true, outcome);
    case Reconcile(_) => L.PurgeTidy(p.limits, s.book, s.now);
    case _ =>
  }

  /** What a running execution, a result and a round trip look like to a step that concerns none of them. */
  ghost predicate KeepsTold(s: State, s': State) {
    && (forall id :: id in s.requests ==> id in s'.requests)
    && (forall id :: id in s.commands ==> id in s'.commands)
    && (forall id :: id in s.results ==> id in s'.results && s'.results[id] == s.results[id])
    && (forall id :: id in s.book.entries && s.book.entries[id].Pending? ==>
          id in s'.book.entries && s'.book.entries[id].Pending?)
  }

  lemma StillAttended(s: State, s': State)
    requires Attended(s) && KeepsTold(s, s')
    requires forall id :: id in s'.waiting ==> id in s.waiting && s'.waiting[id] == s.waiting[id]
    ensures Attended(s')
  {
  }

  lemma SendAttends(p: Params, s: State, id: L.Id, timeout: int, copy: nat, s': State)
    requires Known(s) && Attended(s) && Sends(p, s, id, timeout, copy, s')
    ensures Attended(s')
  {
    hide C.Attempt;
  }

  lemma DeliverAttends(p: Params, s: State, m: Message, s': State)
    requires Attended(s) && Recorded(p, s) && Delivers(p, s, m, s')
    ensures Attended(s')
  {
    hide Attended, KeepsTold, Heard, Verdict, Recorded, Delivers;
    DeliverKeepsTold(p, s, m, s');
    VerdictHolds(p, s, m, s');
    HearingAttends(s, s', m, Verdict(p, s, m));
  }

  lemma DeliverKeepsTold(p: Params, s: State, m: Message, s': State)
    requires Delivers(p, s, m, s')
    ensures KeepsTold(s, s') && s'.waiting == Heard(s.waiting, m, Verdict(p, s, m))
  {
    hide Heard, Verdict, L.Admission;
  }

  lemma HearingAttends(s: State, s': State, m: Message, told: Told)
    requires Attended(s) && KeepsTold(s, s') && s'.waiting == Heard(s.waiting, m, told)
    requires told == Joined ==> m.id in s'.book.entries && s'.book.entries[m.id].Pending?
    requires told.Answered? ==> m.id in s'.results && s'.results[m.id] == told.outcome
    ensures Attended(s')
  {
  }

  lemma VerdictHolds(p: Params, s: State, m: Message, s': State)
    requires Recorded(p, s) && Delivers(p, s, m, s')
    ensures var told := Verdict(p, s, m);
      && (told == Joined ==> m.id in s'.book.entries && s'.book.entries[m.id].Pending?)
      && (told.Answered? ==> m.id in s'.results && s'.results[m.id] == told.outcome)
  {
  }

  lemma CompleteAttends(p: Params, s: State, id: L.Id, outcome: L.Outcome, s': State)
    requires Attended(s) && Recorded(p, s) && Completes(p, s, id, outcome, s')
    ensures Attended(s')
  {
  }

  lemma QuietStepAttends(p: Params, s: State, e: Event, s': State)
    requires Attended(s) && Known(s) && Next(p, s, e, s') && !e.Send? && !e.Deliver? && !e.Complete?
    ensures Attended(s')
  {
    assert KeepsTold(s, s');
    StillAttended(s, s');
  }

  lemma StepAttended(p: Params, s: State, e: Event, s': State)
    requires Known(s) && InTransit(p, s) && Recorded(p, s) && Attended(s) && Next(p, s, e, s')
    ensures Attended(s')
  {
    hide Known, InTransit, Recorded, Attended, Sends, Delivers, Completes;
    match e
    case Send(id, timeout, copy) => SendAttends(p, s, id, timeout, copy, s');
    case Deliver(m) => DeliverAttends(p, s, m, s');
    case Complete(id, outcome) => CompleteAttends(p, s, id, outcome, s');
    case _ => QuietStepAttends(p, s, e, s');
  }

  lemma StepKeepsInv(p: Params, s: State, e: Event, s': State)
    requires Inv(p, s) && Outlasts(p) && Next(p, s, e, s')
    ensures Inv(p, s')
  {
    StepKnown(p, s, e, s');
    StepInTransit(p, s, e, s');
    StepTidy(p, s, e, s');
    StepAttended(p, s, e, s');
    hide Known, InTransit, Recorded, Forgotten, Once, Attended, L.Tidy, Sends, Delivers, Completes;
    match e
    case Deliver(m) => DeliverRecords(p, s, m, s');
    case Complete(id, outcome) => CompleteRecords(p, s, id, outcome, s');
    case _ => QuietStepRecords(p, s, e, s');
  }

  ghost predicate StepAt(p: Params, ss: seq<State>, es: seq<Event>, i: nat)
    requires |ss| == |es| + 1 && i < |es|
  {
    Next(p, ss[i], es[i], ss[i + 1])
  }

  ghost predicate IsPath(p: Params, ss: seq<State>, es: seq<Event>) {
    |ss| == |es| + 1 && forall i :: 0 <= i < |es| ==> StepAt(p, ss, es, i)
  }

  ghost predicate IsRun(p: Params, ss: seq<State>, es: seq<Event>) {
    IsPath(p, ss, es) && ss[0] == START
  }

  lemma StartInv(p: Params)
    ensures Inv(p, START)
  {
  }

  lemma {:induction false} RunKeepsInv(p: Params, ss: seq<State>, es: seq<Event>, i: nat)
    requires IsRun(p, ss, es) && Outlasts(p) && i < |ss|
    ensures Inv(p, ss[i])
  {
    StartInv(p);
    hide Inv, Next;
    if i > 0 {
      RunKeepsInv(p, ss, es, i - 1);
      assert StepAt(p, ss, es, i - 1);
      StepKeepsInv(p, ss[i - 1], es[i - 1], ss[i]);
    }
  }

  /** In every run, however copies are lost, delayed and reordered, no identity is executed twice. */
  lemma ExecutedAtMostOnce(p: Params, ss: seq<State>, es: seq<Event>, i: nat, id: L.Id)
    requires IsRun(p, ss, es) && Outlasts(p) && i < |ss|
    ensures Starts(ss[i], id) <= 1
  {
    RunKeepsInv(p, ss, es, i);
  }

  /**
   What the ledger answers is true of the whole run so far: a refusal for capacity means the
   identity was never executed, a replay is the one outcome its execution reached, joining means the
   execution is running, and an SDK copy is never taken for a different command.
   */
  lemma AnswersAreTrue(p: Params, ss: seq<State>, es: seq<Event>, i: nat, m: Message)
    requires IsRun(p, ss, es) && Outlasts(p) && i < |ss| && m in ss[i].network
    ensures var s := ss[i];
      && Answer(p, s, m) != L.Conflict
      && (Answer(p, s, m) == L.Busy || Answer(p, s, m) == L.Execute ==> Starts(s, m.id) == 0)
      && (Answer(p, s, m).Replay? ==>
            Starts(s, m.id) == 1 && m.id in s.results && s.results[m.id] == Answer(p, s, m).outcome)
      && (Answer(p, s, m) == L.Wait ==> Starts(s, m.id) == 1 && m.id !in s.results)
  {
    RunKeepsInv(p, ss, es, i);
    if m.id !in L.Purged(ss[i].book.entries, ss[i].now) { NoEntryMeansFirst(p, ss[i], m); }
  }

  /** The read-only reconciliation is as truthful, and reports an unknown identity as unknown only when it is. */
  lemma ReconciliationIsTrue(p: Params, ss: seq<State>, es: seq<Event>, i: nat, id: L.Id)
    requires IsRun(p, ss, es) && Outlasts(p) && i < |ss|
    ensures var s := ss[i]; match L.Lookup(s.book.entries, s.now, id)
      case Settled(outcome) => id in s.results && s.results[id] == outcome && Starts(s, id) == 1
      case StillPending => Starts(s, id) == 1 && id !in s.results
      case NotMutation => false
      case Missing =>
        Starts(s, id) == 0 || (id in s.requests && s.requests[id].created + p.limits.ttl <= s.now)
  {
    RunKeepsInv(p, ss, es, i);
  }

  lemma ResultStays(p: Params, s: State, e: Event, s': State, id: L.Id)
    requires Recorded(p, s) && Next(p, s, e, s') && id in s.results
    ensures id in s'.results && s'.results[id] == s.results[id]
  {
    hide L.Begin, L.Admission, L.Finish, C.Attempt;
  }

  lemma LookupTellsResult(p: Params, s: State, id: L.Id)
    requires Recorded(p, s) && id in s.results
    ensures L.Lookup(s.book.entries, s.now, id) in {L.Settled(s.results[id]), L.Missing}
  {
  }

  lemma CompletedWasPending(p: Params, s: State, id: L.Id, outcome: L.Outcome, s': State)
    requires Recorded(p, s) && Completes(p, s, id, outcome, s')
    ensures L.Lookup(s.book.entries, s.now, id) == L.StillPending && id in s'.results && s'.results[id] == outcome
  {
  }

  /** Whoever watches a pending identity is told the outcome of its execution, and that outcome never changes. */
  lemma {:induction false} WatcherSeesTheOutcome(
    p: Params, ss: seq<State>, es: seq<Event>, k: nat, j: nat, id: L.Id, outcome: L.Outcome)
    requires IsRun(p, ss, es) && Outlasts(p) && k < j < |ss| && es[k] == Complete(id, outcome)
    ensures id in ss[j].results && ss[j].results[id] == outcome
    ensures L.Lookup(ss[k].book.entries, ss[k].now, id) == L.StillPending
    ensures L.Lookup(ss[j].book.entries, ss[j].now, id) in {L.Settled(outcome), L.Missing}
    decreases j
  {
    hide Completes, Recorded, L.Lookup;
    assert StepAt(p, ss, es, j - 1);
    RunKeepsInv(p, ss, es, j - 1);
    RunKeepsInv(p, ss, es, j);
    if k + 1 < j {
      WatcherSeesTheOutcome(p, ss, es, k, j - 1, id, outcome);
      hide Next;
      ResultStays(p, ss[j - 1], es[j - 1], ss[j], id);
    } else {
      CompletedWasPending(p, ss[k], id, outcome, ss[j]);
    }
    LookupTellsResult(p, ss[j], id);
  }

  ghost predicate NoSecondStart(ss: seq<State>) {
    forall i, id | 0 <= i < |ss| :: Starts(ss[i], id) <= 1
  }

  /**
   What the SDK learns is true: a settled outcome is the one the only execution reached, an elapsed
   wait means the execution is running, and anything else is a refusal before admission.
   */
  lemma LearnsTheTruth(p: Params, ss: seq<State>, es: seq<Event>, k: nat)
    requires IsRun(p, ss, es) && Outlasts(p) && k < |es| && es[k].Learn? && es[k].reply.Some?
    ensures var s, id, outcome := ss[k], es[k].id, es[k].reply.value;
      && id in s.waiting && s.waiting[id].told.Some? && match s.waiting[id].told.value
      case Answered(reached) => outcome == reached && id in s.results && s.results[id] == reached && Starts(s, id) == 1
      case Joined => outcome.Failure? && outcome.status == L.Indeterminate && Starts(s, id) == 1 && id !in s.results
      case Refused => outcome.Failure? && outcome.status == L.NotDispatched
  {
    assert StepAt(p, ss, es, k);
    RunKeepsInv(p, ss, es, k);
  }

  ghost predicate Concerns(e: Event, id: L.Id) {
    (e.Send? || e.Learn?) && e.id == id
  }

  /** The open round trip of `id` in state `j` began with the send at `n`, and nothing concerned `id` since. */
  ghost predicate BeganAt(ss: seq<State>, es: seq<Event>, n: nat, j: nat, id: L.Id) {
    && |ss| == |es| + 1 && n < j < |ss| && id in ss[j].waiting && es[n].Send? && es[n].id == id
    && ss[j].waiting[id].m !in ss[n].network && ss[j].waiting[id].m in ss[n + 1].network
    && ss[j].waiting[id].m.sent == ss[n].now && ss[j].waiting[id].m.copy == es[n].copy
    && forall k :: n < k < j ==> !Concerns(es[k], id)
  }

  /** What it was told by then is what its own copy was told at `i`, or the outcome of the execution that one joined. */
  ghost predicate ToldAt(p: Params, ss: seq<State>, es: seq<Event>, i: nat, j: nat, id: L.Id)
    requires |ss| == |es| + 1 && j < |ss| && id in ss[j].waiting && ss[j].waiting[id].told.Some?
  {
    && i < j && es[i] == Deliver(ss[j].waiting[id].m)
    && var verdict, told := Verdict(p, ss[i], es[i].m), ss[j].waiting[id].told.value;
    || told == verdict
    || (verdict == Joined && told.Answered? && exists k :: i < k < j && es[k] == Complete(id, told.outcome))
  }

  lemma RoundStep(p: Params, s: State, e: Event, s': State, id: L.Id)
    requires Next(p, s, e, s') && id in s'.waiting
    ensures id !in s.waiting ==>
      && e.Send? && e.id == id && s'.waiting[id].told.None? && s'.waiting[id].m !in s.network
      && s'.waiting[id].m in s'.network && s'.waiting[id].m.sent == s.now && s'.waiting[id].m.copy == e.copy
      && s'.waiting[id].m.id == id
    ensures id in s.waiting ==>
      && !Concerns(e, id) && s'.waiting[id].m == s.waiting[id].m
      && (s'.waiting[id].told == s.waiting[id].told ||
          (e == Deliver(s.waiting[id].m) && s'.waiting[id].told == Some(Verdict(p, s, e.m))) ||
          (e.Complete? && e.id == id && s.waiting[id].told == Some(Joined) &&
           s'.waiting[id].told == Some(Answered(e.outcome))))
  {
    hide L.Begin, L.Finish, L.Admission, L.Purged, C.Attempt, C.Settle, Verdict, MayHear;
  }

  lemma {:induction false} RoundTraced(p: Params, ss: seq<State>, es: seq<Event>, j: nat, id: L.Id)
    returns (n: nat, i: nat)
    requires IsRun(p, ss, es) && j < |ss| && id in ss[j].waiting
    ensures BeganAt(ss, es, n, j, id)
    ensures ss[j].waiting[id].told.Some? ==> n < i && ToldAt(p, ss, es, i, j, id)
  {
    hide Next, Verdict;
    assert j > 0;
    assert StepAt(p, ss, es, j - 1);
    RoundStep(p, ss[j - 1], es[j - 1], ss[j], id);
    if id !in ss[j - 1].waiting {
      n, i := j - 1, 0;
    } else {
      n, i := RoundTraced(p, ss, es, j - 1, id);
      if ss[j].waiting[id].told != ss[j - 1].waiting[id].told && es[j - 1].Deliver? { i := j - 1; }
    }
  }

  /**
   The SDK hears only about the copy it sent last: the reply it learns was given to the copy of its
   last send, after that send, or is the outcome of the execution that copy joined.
   */
  lemma LearnsOfLastCopy(p: Params, ss: seq<State>, es: seq<Event>, k: nat) returns (n: nat, i: nat)
    requires IsRun(p, ss, es) && k < |es| && es[k].Learn? && es[k].reply.Some?
    ensures n < i < k && es[n].Send? && es[n].id == es[k].id && forall j :: n < j < k ==> !Concerns(es[j], es[k].id)
    ensures es[i].Deliver? && es[i].m.id == es[k].id && es[i].m.sent == ss[n].now && es[i].m.copy == es[n].copy
    ensures var verdict, outcome := Verdict(p, ss[i], es[i].m), es[k].reply.value;
      match verdict
      case Refused => outcome.Failure? && outcome.status == L.NotDispatched
      case Answered(reached) => outcome == reached
      case Joined =>
        || (outcome.Failure? && outcome.status == L.Indeterminate)
        || exists c :: i < c < k && es[c] == Complete(es[k].id, outcome)
  {
    hide Verdict;
    assert StepAt(p, ss, es, k);
    var id := es[k].id;
    LearnStep(p, ss[k], es[k], ss[k + 1]);
    hide Next;
    n, i := RoundTraced(p, ss, es, k, id);
    RoundOwn(p, ss, es, k, id);
  }

  lemma LearnStep(p: Params, s: State, e: Event, s': State)
    requires Next(p, s, e, s') && e.Learn? && e.reply.Some?
    ensures e.id in s.waiting && s.waiting[e.id].told.Some? && MayHear(s.waiting[e.id].told, e.reply)
  {
  }

  lemma {:induction false} RoundOwn(p: Params, ss: seq<State>, es: seq<Event>, j: nat, id: L.Id)
    requires IsRun(p, ss, es) && j < |ss| && id in ss[j].waiting
    ensures ss[j].waiting[id].m.id == id
  {
    hide Next;
    assert j > 0;
    assert StepAt(p, ss, es, j - 1);
    RoundStep(p, ss[j - 1], es[j - 1], ss[j], id);
    if id in ss[j - 1].waiting { RoundOwn(p, ss, es, j - 1, id); }
  }

  lemma RequestUntouched(p: Params, s: State, e: Event, s': State, id: L.Id)
    requires Known(s) && Next(p, s, e, s') && id in s.requests && id !in s.waiting && !Concerns(e, id)
    ensures id in s'.requests && s'.requests[id] == s.requests[id] && id !in s'.waiting
  {
    hide L.Begin, L.Finish, L.Admission, C.Attempt, C.Settle, C.Armed, Verdict, MayHear;
  }

  lemma {:induction false} RequestUntouchedUntil(
    p: Params, ss: seq<State>, es: seq<Event>, i: nat, n: nat, id: L.Id)
    requires IsRun(p, ss, es) && Outlasts(p) && i <= n < |ss| && id in ss[i].requests && id !in ss[i].waiting
    requires forall m :: i <= m < n ==> !Concerns(es[m], id)
    ensures id in ss[n].requests && ss[n].requests[id] == ss[i].requests[id] && id !in ss[n].waiting
    decreases n - i
  {
    hide Next;
    if i < n {
      RequestUntouchedUntil(p, ss, es, i, n - 1, id);
      assert StepAt(p, ss, es, n - 1);
      RunKeepsInv(p, ss, es, n - 1);
      hide InTransit, Recorded, Forgotten, Once, Attended, L.Tidy;
      RequestUntouched(p, ss[n - 1], es[n - 1], ss[n], id);
    }
  }

  lemma InconclusiveStays(p: Params, s: State, e: Event, s': State)
    requires Next(p, s, e, s') && e.Learn?
    requires e.reply.None? || (e.reply.value.Failure? && e.reply.value.status != L.NotDispatched)
    ensures e.id in s.requests && s'.requests == s.requests && e.id !in s'.waiting
  {
    assert s.requests[e.id := s.requests[e.id]] == s.requests;
  }

  /** A wait no shorter than the last, inside the horizon and the wire's bound, sends a copy of an open request. */
  lemma OpenIsSent(p: Params, s: State, id: L.Id, timeout: int, copy: nat, s': State)
    requires Known(s) && Next(p, s, Send(id, timeout, copy), s') && s.requests[id].command.Some?
    requires s.now <= s.requests[id].created + p.horizon && s.requests[id].lastWait <= timeout
    requires 1_000_000 <= timeout < 0x1_0000_0000 * 1_000_000
    ensures id in s.commands && var m := Message(id, s.commands[id], timeout / 1_000_000, s.now, copy);
      m in s'.network && s'.waiting == s.waiting[id := Round(m, None)]
  {
  }

  /**
   After a lost reply, or one that says neither success nor not dispatched, the next wait, if no shorter
   than the last and inside the horizon and the wire's bound, sends another copy of the same command.
   */
  lemma InconclusiveIsResent(p: Params, ss: seq<State>, es: seq<Event>, k: nat, n: nat)
    requires IsRun(p, ss, es) && Outlasts(p) && k < n < |es| && es[k].Learn?
    requires es[k].reply.None? || (es[k].reply.value.Failure? && es[k].reply.value.status != L.NotDispatched)
    requires es[n].Send? && es[n].id == es[k].id && forall m :: k < m < n ==> !Concerns(es[m], es[k].id)
    requires var id := es[k].id;
      && id in ss[k].requests && ss[k].requests[id].command.Some?
      && ss[n].now <= ss[k].requests[id].created + p.horizon && ss[k].requests[id].lastWait <= es[n].timeout
    requires 1_000_000 <= es[n].timeout < 0x1_0000_0000 * 1_000_000
    ensures var id := es[k].id;
      && id in ss[n].commands
      && var m := Message(id, ss[n].commands[id], es[n].timeout / 1_000_000, ss[n].now, es[n].copy);
      m in ss[n + 1].network && id in ss[n + 1].waiting && ss[n + 1].waiting[id] == Round(m, None)
  {
    hide Next;
    assert StepAt(p, ss, es, k) && StepAt(p, ss, es, n);
    InconclusiveStays(p, ss[k], es[k], ss[k + 1]);
    RequestUntouchedUntil(p, ss, es, k + 1, n, es[k].id);
    RunKeepsInv(p, ss, es, n);
    OpenIsSent(p, ss[n], es[n].id, es[n].timeout, es[n].copy, ss[n + 1]);
  }

  /** A state of the losing run: `id` alone, created at time 0. */
  ghost function Alone(
    id: L.Id, command: L.Command, now: L.Time, lastWait: int, entries: map<L.Id, L.Entry>, inflight: nat,
    waiting: map<L.Id, Round>, network: set<Message>, starts: map<L.Id, nat>, results: map<L.Id, L.Outcome>): State
  {
    State(now, L.Book(entries, inflight), map[id := C.Request(Some(command), 0, false, false, lastWait)], waiting,
          network, starts, results, map[id := command])
  }

  /** One wait of a millisecond that the SDK gives up on, leaving a copy behind. */
  lemma SendAlone(p: Params, id: L.Id, command: L.Command, now: L.Time, s: State, lastWait: int, copy: nat)
    returns (t: State)
    requires s == Alone(id, command, now, lastWait, s.book.entries, s.book.inflight, map[], {}, s.starts, s.results)
    requires now <= p.horizon && 0 <= lastWait <= C.MILLISECOND
    ensures Next(p, s, Send(id, C.MILLISECOND, copy), t)
    ensures Next(p, t, Learn(id, None),
      Alone(id, command, now, C.MILLISECOND, s.book.entries, s.book.inflight, map[],
            {Message(id, command, 1, now, copy)}, s.starts, s.results))
  {
    assert C.WireTimeout(C.MILLISECOND) == Ok(1);
    var m := Message(id, command, 1, now, copy);
    t := Alone(id, command, now, C.MILLISECOND, s.book.entries, s.book.inflight, map[id := Round(m, None)],
               {m}, s.starts, s.results);
    assert t.waiting - {id} == map[];
  }

  lemma DeliverAlone(p: Params, id: L.Id, command: L.Command, s: State, m: Message)
    requires s == Alone(id, command, s.now, C.MILLISECOND, s.book.entries, 0, map[], {m}, s.starts, s.results)
    requires m.id == id && m.command == command && Timely(p, m)
    requires p.limits.maxInflight > 0 && p.limits.maxCompleted > 0
    requires forall k :: k in s.book.entries ==> L.Expired(s.book.entries[k], s.now)
    requires s.starts.Keys <= {id}
    ensures Next(p, s, Deliver(m),
      Alone(id, command, s.now, C.MILLISECOND, map[id := L.Pending(command, true)], 1, map[], {},
            map[id := Starts(s, id) + 1], s.results))
  {
    assert L.Purged(s.book.entries, s.now) == map[];
  }

  /** The bounds the dispatcher's constructor demands. */
  predicate Configured(p: Params) {
    p.limits.maxInflight > 0 && p.limits.maxCompleted > 0 && p.maxTimeout > 0
  }

  /** The first copy executes, after the SDK stopped waiting for it. */
  lemma ExecutesOnce(p: Params, id: L.Id, command: L.Command, outcome: L.Outcome)
    returns (ss: seq<State>, es: seq<Event>)
    requires Configured(p)
    ensures IsRun(p, ss, es)
    ensures ss[|ss| - 1] ==
      Alone(id, command, 0, C.MILLISECOND, map[id := L.Complete(command, true, outcome, p.limits.ttl)], 0, map[], {},
            map[id := 1], map[id := outcome])
  {
    hide L.Purged, L.Admission, L.Begin, C.Attempt, C.WireTimeout, Sends, Delivers, Learns;
    var wait, m := C.MILLISECOND, Message(id, command, 1, 0, 0);
    var pending := map[id := L.Pending(command, true)];
    var done := map[id := L.Complete(command, true, outcome, p.limits.ttl)];
    var s1 := Alone(id, command, 0, 0, map[], 0, map[], {}, map[], map[]);
    var s2 := SendAlone(p, id, command, 0, s1, 0, 0);
    var s3 := Alone(id, command, 0, wait, map[], 0, map[], {m}, map[], map[]);
    var s4 := Alone(id, command, 0, wait, pending, 1, map[], {}, map[id := 1], map[]);
    var s5 := Alone(id, command, 0, wait, done, 0, map[], {}, map[id := 1], map[id := outcome]);
    assert Next(p, START, Create(id, command), s1);
    assert Next(p, s3, Deliver(m), s4) by { DeliverAlone(p, id, command, s3, m); }
    assert Next(p, s4, Complete(id, outcome), s5);
    ss := [START, s1, s2, s3, s4, s5];
    es := [Create(id, command), Send(id, wait, 0), Learn(id, None), Deliver(m), Complete(id, outcome)];
    hide Next;
    forall i | 0 <= i < |es| ensures StepAt(p, ss, es, i) {
    }
  }

  /** A later copy arrives just when the result has gone. */
  lemma ExecutesAgain(p: Params, id: L.Id, command: L.Command, outcome: L.Outcome, s: State)
    returns (ss: seq<State>, es: seq<Event>)
    requires !Outlasts(p) && Configured(p)
    requires s ==
      Alone(id, command, 0, C.MILLISECOND, map[id := L.Complete(command, true, outcome, p.limits.ttl)], 0, map[], {},
            map[id := 1], map[id := outcome])
    ensures IsPath(p, ss, es) && ss[0] == s && Starts(ss[|ss| - 1], id) == 2
  {
    hide L.Purged, L.Admission, L.Begin, C.Attempt, C.WireTimeout, Sends, Delivers, Learns;
    var ttl, wait, later := p.limits.ttl, C.MILLISECOND, SaturatingSub(p.limits.ttl, p.delay);
    var m, done := Message(id, command, 1, later, 1), s.book.entries;
    var s1 := Alone(id, command, later, wait, done, 0, map[], {}, map[id := 1], map[id := outcome]);
    var s2 := SendAlone(p, id, command, later, s1, wait, 1);
    var s3 := Alone(id, command, later, wait, done, 0, map[], {m}, map[id := 1], map[id := outcome]);
    var s4 := Alone(id, command, ttl, wait, done, 0, map[], {m}, map[id := 1], map[id := outcome]);
    var s5 := Alone(id, command, ttl, wait, map[id := L.Pending(command, true)], 1, map[], {}, map[id := 2],
                    map[id := outcome]);
    assert Next(p, s, Tick(later), s1);
    assert Next(p, s3, Tick(ttl), s4);
    assert Next(p, s4, Deliver(m), s5) by { DeliverAlone(p, id, command, s4, m); }
    ss := [s, s1, s2, s3, s4, s5];
    es := [Tick(later), Send(id, wait, 1), Learn(id, None), Tick(ttl), Deliver(m)];
    hide Next;
    forall i | 0 <= i < |es| ensures StepAt(p, ss, es, i) {
    }
  }

  lemma RunGoesOn(p: Params, ss: seq<State>, es: seq<Event>, ss': seq<State>, es': seq<Event>)
    requires IsRun(p, ss, es) && IsPath(p, ss', es') && ss'[0] == ss[|ss| - 1]
    ensures IsRun(p, ss + ss'[1..], es + es')
  {
    hide Next;
    var all, events := ss + ss'[1..], es + es';
    forall i | 0 <= i < |events| ensures StepAt(p, all, events, i) {
      if i < |es| { assert StepAt(p, ss, es, i); } else { assert StepAt(p, ss', es', i - |es|); }
    }
  }

  /** Where a copy may arrive once its result expired, one lost reply is enough to execute the mutation again. */
  lemma LateCopyExecutesAgain(p: Params, id: L.Id, command: L.Command, outcome: L.Outcome)
    returns (ss: seq<State>, es: seq<Event>)
    requires !Outlasts(p) && Configured(p)
    ensures IsRun(p, ss, es) && Starts(ss[|ss| - 1], id) == 2
  {
    hide Next;
    ss, es := ExecutesOnce(p, id, command, outcome);
    var ss', es' := ExecutesAgain(p, id, command, outcome, ss[|ss| - 1]);
    RunGoesOn(p, ss, es, ss', es');
    ss, es := ss + ss'[1..], es + es';
  }

  /** Executing at most once is exactly the retention time outlasting horizon plus delay. */
  lemma AtMostOnceExactly(p: Params)
    requires Configured(p)
    ensures Outlasts(p) <==> forall ss, es :: IsRun(p, ss, es) ==> NoSecondStart(ss)
  {
    if Outlasts(p) {
      forall ss, es | IsRun(p, ss, es) ensures NoSecondStart(ss) {
        forall i, id | 0 <= i < |ss| ensures Starts(ss[i], id) <= 1 { ExecutedAtMostOnce(p, ss, es, i, id); }
      }
    } else {
      var ss, es := LateCopyExecutesAgain(p, "", 0, L.Success(0));
      assert !NoSecondStart(ss) by { assert Starts(ss[|ss| - 1], "") == 2; }
    }
  }

  const DEFAULT_TTL: nat := 10 * 60 * 1000 * C.MILLISECOND

  /** No horizon the SDK accepts fits under the dispatcher's default retention time. */
  lemma DefaultsOverlap(p: Params)
    requires p.horizon >= C.MIN_HORIZON && p.limits.ttl == DEFAULT_TTL && Configured(p)
    ensures exists ss, es :: IsRun(p, ss, es) && !NoSecondStart(ss)
  {
    AtMostOnceExactly(p);
  }
}
