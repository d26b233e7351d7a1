/**
 The adapter's session slot as an interleaving of atomic steps. Session-using tool calls and the
 rebuild inside a launch are serialized by the operation lock; any number of `close` calls are not.
 Both `close` and a refused rebuild hold the slot's mutex across their CloseSession request.
 The runtime may expire a session or shut down at any moment, and reports SessionUnavailable only
 for a session it no longer has.
 */
module SessionSlot {
  import opened Common

  type Session = nat
  type CallId = nat

  datatype Phase =
    | Using(session: Session)
    | Probing
    | Reported(serialized: bool)
    | Opening
    | Opened(session: Session)
    | Checked(session: Session)
    | Refusing(session: Session)
    | Retiring(session: Session)
    | CloseBegun
    | Closing(session: Session)

  /**
   `everOpened`, `sent`, `dropped` and `emptied` are history: every session ever opened, the CloseSession
   requests in order, the sessions forgotten after a death report, and whether a close took the slot.
   */
  datatype State = State(
    slot: Option<Session>, closed: bool, lock: Option<CallId>, operation: Option<CallId>, calls: map<CallId, Phase>,
    live: set<Session>, down: bool, everOpened: set<Session>, sent: seq<Session>, dropped: set<Session>, emptied: bool)

  /** The session a call has taken upon itself to close. */
  predicate Owns(p: Phase, x: Session) {
    (p.Opened? || p.Checked? || p.Refusing? || p.Retiring? || p.Closing?) && p.session == x
  }

  predicate HoldsLock(p: Phase) {
    p.Checked? || p.Refusing? || p.Closing?
  }

  predicate HoldsOperation(p: Phase) {
    p.Using? || p == Reported(true) || p.Opening? || p.Opened? || p.Checked? || p.Refusing? || p.Retiring?
  }

  datatype Event =
    | Expire(session: Session)
    | Shutdown
    | StartUse(c: CallId)
    | StartProbe(c: CallId)
    | StartLaunch(c: CallId)
    | StartClose(c: CallId)
    | Answer(c: CallId)
    | ReportDead(c: CallId)
    | Invalidate(c: CallId)
    | OpenSession(c: CallId, session: Session)
    | LockAndCheck(c: CallId)
    | Replace(c: CallId)
    | SendClose(c: CallId)
    | TakeSlot(c: CallId)

  function At(s: State, c: CallId, p: Phase): State {
    s.(calls := s.calls[c := p])
  }

  /** The call returns, releasing whichever locks it holds. */
  function Done(s: State, c: CallId): State {
    s.(calls := s.calls - {c},
       lock := if s.lock == Some(c) then None else s.lock,
       operation := if s.operation == Some(c) then None else s.operation)
  }

  ghost predicate Enabled(s: State, e: Event) {
    match e
    case Expire(_) => true
    case Shutdown => true
    case StartUse(c) => c !in s.calls && s.operation.None? && s.lock.None? && s.slot.Some?
    case StartProbe(c) => c !in s.calls
    case StartLaunch(c) => c !in s.calls && s.operation.None?
    case StartClose(c) => c !in s.calls
    case Answer(c) => c in s.calls && (s.calls[c].Using? || s.calls[c].Probing? || s.calls[c].Opening?)
    case ReportDead(c) =>
      && c in s.calls
      && ((s.down && (s.calls[c].Probing? || s.calls[c].Opening?)) ||
          (s.calls[c].Using? && s.calls[c].session !in s.live))
    case Invalidate(c) => c in s.calls && s.calls[c].Reported? && s.lock.None?
    case OpenSession(c, x) => c in s.calls && s.calls[c].Opening? && !s.down && x !in s.everOpened
    case LockAndCheck(c) => c in s.calls && s.calls[c].Opened? && s.lock.None?
    case Replace(c) => c in s.calls && s.calls[c].Checked?
    case SendClose(c) => c in s.calls && (s.calls[c].Refusing? || s.calls[c].Retiring? || s.calls[c].Closing?)
    case TakeSlot(c) => c in s.calls && s.calls[c].CloseBegun? && s.lock.None?
  }

  ghost function After(s: State, e: Event): State
    requires Enabled(s, e)
  {
    match e
    case Expire(x) => s.(live := s.live - {x})
    case Shutdown => s.(down := true, live := {})
    case StartUse(c) => At(s, c, Using(s.slot.value)).(operation := Some(c))
    case StartProbe(c) => At(s, c, Probing)
    case StartLaunch(c) => At(s, c, Opening).(operation := Some(c))
    case StartClose(c) => At(s, c, CloseBegun).(closed := true)
    case Answer(c) => Done(s, c)
    case ReportDead(c) => At(s, c, Reported(!s.calls[c].Probing?))
    case Invalidate(c) =>
      Done(s, c).(slot := None, dropped := if s.slot.Some? then s.dropped + {s.slot.value} else s.dropped)
    case OpenSession(c, x) => At(s, c, Opened(x)).(live := s.live + {x}, everOpened := s.everOpened + {x})
    case LockAndCheck(c) =>
      var x := s.calls[c].session;
      At(s, c, if s.closed then Refusing(x) else Checked(x)).(lock := Some(c))
    case Replace(c) =>
      var x := s.calls[c].session;
      if s.slot.Some? then At(s, c, Retiring(s.slot.value)).(slot := Some(x), lock := None)
      else Done(s, c).(slot := Some(x))
    case SendClose(c) =>
      var x := s.calls[c].session;
      Done(s, c).(sent := s.sent + [x], live := s.live - {x})
    case TakeSlot(c) =>
      if s.slot.Some? then At(s, c, Closing(s.slot.value)).(slot := None, lock := Some(c), emptied := true)
      else Done(s, c).(emptied := true)
  }

  ghost predicate Next(s: State, e: Event, s': State) {
    Enabled(s, e) && s' == After(s, e)
  }

  /** Where a session is: the slot, one responsible call, the CloseSession log, or forgotten as dead. */
  datatype Place = InSlot | HeldBy(c: CallId) | ClosedBy(i: nat) | Forgotten

  ghost predicate IsAt(s: State, x: Session, p: Place) {
    match p
    case InSlot => s.slot == Some(x)
    case HeldBy(c) => c in s.calls && Owns(s.calls[c], x)
    case ClosedBy(i) => i < |s.sent| && s.sent[i] == x
    case Forgotten => x in s.dropped
  }

  /** No session is in two places, so in particular none is sent CloseSession twice. */
  ghost predicate OnePlace(s: State) {
    forall x: Session, p, q :: IsAt(s, x, p) && IsAt(s, x, q) ==> p == q
  }

  ghost predicate Accounted(s: State) {
    && (forall x :: x in s.everOpened ==> exists p :: IsAt(s, x, p))
    && (forall x: Session, p :: IsAt(s, x, p) ==> x in s.everOpened)
  }

  ghost predicate DeadOrAlive(s: State) {
    && s.live <= s.everOpened
    && (forall x :: x in s.sent ==> x !in s.live)
    && (forall x :: x in s.dropped ==> x !in s.live)
    && (s.down ==> s.live == {})
  }

  ghost predicate LockAgrees(s: State) {
    && (forall c :: c in s.calls && HoldsLock(s.calls[c]) ==> s.lock == Some(c))
    && (s.lock.Some? ==> s.lock.value in s.calls && HoldsLock(s.calls[s.lock.value]))
  }

  ghost predicate HolderIs(s: State, c: CallId) {
    c in s.calls && HoldsOperation(s.calls[c]) ==> s.operation == Some(c)
  }

  ghost predicate HolderHolds(s: State) {
    s.operation.Some? ==> s.operation.value in s.calls && HoldsOperation(s.calls[s.operation.value])
  }

  ghost predicate OperationAgrees(s: State) {
    HolderHolds(s) && forall c :: HolderIs(s, c)
  }

  ghost predicate ReportsHold(s: State) {
    && (forall c :: c in s.calls && s.calls[c].Using? ==> s.slot.None? || s.slot == Some(s.calls[c].session))
    && (forall c :: c in s.calls && s.calls[c] == Reported(false) ==> s.down)
    && (forall c :: c in s.calls && s.calls[c].Reported? && s.slot.Some? ==> s.slot.value !in s.live)
  }

  ghost predicate ClosedForGood(s: State) {
    && (forall c :: c in s.calls && (s.calls[c].CloseBegun? || s.calls[c].Closing?) ==> s.closed)
    && (s.emptied ==> s.closed && s.slot.None? && forall c :: c in s.calls ==> !s.calls[c].Checked?)
  }

  ghost predicate Inv(s: State) {
    && OnePlace(s) && Accounted(s) && DeadOrAlive(s) && LockAgrees(s) && OperationAgrees(s) && ReportsHold(s)
    && ClosedForGood(s)
  }

  /** Bootstrap either opened one session into the slot or left it empty. */
  ghost predicate Initial(s: State) {
    && s.calls == map[] && s.lock.None? && s.operation.None? && !s.closed && !s.emptied && !s.down
    && s.sent == [] && s.dropped == {}
    && s.everOpened == s.live == (if s.slot.Some? then {s.slot.value} else {})
  }

  lemma InitialInv(s: State)
    requires Initial(s)
    ensures Inv(s)
  {
    forall x | x in s.everOpened ensures exists p :: IsAt(s, x, p) { assert IsAt(s, x, InSlot); }
  }

  lemma StepKeepsLocks(s: State, e: Event, s': State)
    requires LockAgrees(s) && Next(s, e, s')
    ensures LockAgrees(s')
  {
  }

  lemma StepKeepsOperation(s: State, e: Event, s': State)
    requires OperationAgrees(s) && Next(s, e, s')
    ensures OperationAgrees(s')
  {
    HolderStillHolds(s, e, s');
    forall c ensures HolderIs(s', c) {
      assert HolderIs(s, c);
      HolderStays(s, e, s', c);
    }
  }

  lemma HolderStays(s: State, e: Event, s': State, c: CallId)
    requires HolderIs(s, c) && Next(s, e, s')
    ensures HolderIs(s', c)
  {
    if CallOf(e).Some? { HolderStaysInCall(s, e, s', c); }
  }

  lemma HolderStaysInCall(s: State, e: Event, s': State, c: CallId)
    requires HolderIs(s, c) && Next(s, e, s') && CallOf(e).Some?
    ensures HolderIs(s', c)
  {
    MovesOnly(s, e, s', CallOf(e).value);
    if c != CallOf(e).value && c in s'.calls { assert c in s'.calls - {CallOf(e).value}; }
  }

  lemma HolderStillHolds(s: State, e: Event, s': State)
    requires HolderHolds(s) && Next(s, e, s')
    ensures HolderHolds(s')
  {
  }

  lemma StepStaysClosed(s: State, e: Event, s': State)
    requires ClosedForGood(s) && LockAgrees(s) && Next(s, e, s')
    ensures ClosedForGood(s')
  {
  }

  lemma StepKeepsReports(s: State, e: Event, s': State)
    requires Inv(s) && Next(s, e, s')
    ensures ReportsHold(s')
  {
    SlotWasOpened(s);
    hide OnePlace, ClosedForGood, Accounted, LockAgrees, IsAt;
    if e.Replace? {
      forall d | d in s.calls && d != e.c ensures !HoldsOperation(s.calls[d]) {
        assert HolderIs(s, d) && HolderIs(s, e.c);
      }
    }
  }

  lemma SlotWasOpened(s: State)
    requires Accounted(s)
    ensures s.slot.Some? ==> s.slot.value in s.everOpened
  {
    if s.slot.Some? { assert IsAt(s, s.slot.value, InSlot); }
  }

  lemma StepKeepsDeaths(s: State, e: Event, s': State)
    requires Inv(s) && Next(s, e, s')
    ensures DeadOrAlive(s')
  {
    hide OnePlace, ClosedForGood, LockAgrees, OperationAgrees;
    forall x | x in s.sent || x in s.dropped ensures x in s.everOpened {
      if x in s.sent {
        var i :| 0 <= i < |s.sent| && s.sent[i] == x;
        assert IsAt(s, x, ClosedBy(i));
      } else {
        assert IsAt(s, x, Forgotten);
      }
    }
  }

  /** How a step moves a session: everything stays where it was except what the step hands over. */
  ghost function MovedTo(s: State, e: Event, x: Session, p: Place): Place
    requires Enabled(s, e) && IsAt(s, x, p)
  {
    match e
    case Invalidate(_) => if p == InSlot then Forgotten else p
    case Replace(c) => if p == HeldBy(c) then InSlot else if p == InSlot then HeldBy(c) else p
    case SendClose(c) => if p == HeldBy(c) then ClosedBy(|s.sent|) else p
    case TakeSlot(c) => if p == InSlot then HeldBy(c) else p
    case _ => p
  }

  lemma StepMoves(s: State, e: Event, s': State, x: Session, p: Place)
    requires Next(s, e, s') && IsAt(s, x, p)
    ensures IsAt(s', x, MovedTo(s, e, x, p))
  {
    if !Moves(e) { StaysPut(s, e, s', x, p); }
  }

  predicate Moves(e: Event) {
    e.Invalidate? || e.Replace? || e.SendClose? || e.TakeSlot? || e.OpenSession?
  }

  lemma StaysPut(s: State, e: Event, s': State, x: Session, p: Place)
    requires Next(s, e, s') && !Moves(e)
    ensures IsAt(s', x, p) <==> IsAt(s, x, p)
  {
  }

  /** Nothing appears out of nowhere but a session the step opened. */
  lemma StepCameFrom(s: State, e: Event, s': State, x: Session, q: Place) returns (p: Place)
    requires Next(s, e, s') && IsAt(s', x, q) && !(e.OpenSession? && e.session == x)
    ensures IsAt(s, x, p) && MovedTo(s, e, x, p) == q
  {
    if !Moves(e) {
      StaysPut(s, e, s', x, q);
      p := q;
    } else {
      p := CameFromMove(s, e, s', x, q);
    }
  }

  lemma CameFromMove(s: State, e: Event, s': State, x: Session, q: Place) returns (p: Place)
    requires Moves(e) && Next(s, e, s') && IsAt(s', x, q) && !(e.OpenSession? && e.session == x)
    ensures IsAt(s, x, p) && MovedTo(s, e, x, p) == q
  {
    p := match e
         case Invalidate(_) => if q == Forgotten && x !in s.dropped then InSlot else q
         case Replace(c) => if q == InSlot then HeldBy(c) else if q == HeldBy(c) then InSlot else q
         case SendClose(c) => if q == ClosedBy(|s.sent|) then HeldBy(c) else q
         case TakeSlot(c) => if q == HeldBy(c) then InSlot else q
         case _ => q;
  }

  lemma StepKeepsOnePlace(s: State, e: Event, s': State)
    requires Inv(s) && Next(s, e, s')
    ensures OnePlace(s')
  {
    forall x: Session, q1, q2 | IsAt(s', x, q1) && IsAt(s', x, q2) ensures q1 == q2 {
      if e.OpenSession? && e.session == x {
        OnlyHolder(s, e, s', q1);
        OnlyHolder(s, e, s', q2);
      } else {
        var p1 := StepCameFrom(s, e, s', x, q1);
        var p2 := StepCameFrom(s, e, s', x, q2);
      }
    }
  }

  lemma OnlyHolder(s: State, e: Event, s': State, q: Place)
    requires Accounted(s) && Next(s, e, s') && e.OpenSession? && IsAt(s', e.session, q)
    ensures q == HeldBy(e.c)
  {
    if q != HeldBy(e.c) { assert IsAt(s, e.session, q); }
  }

  lemma StepKeepsAccount(s: State, e: Event, s': State)
    requires Inv(s) && Next(s, e, s')
    ensures Accounted(s')
  {
    forall x | x in s'.everOpened ensures exists q :: IsAt(s', x, q) {
      if e.OpenSession? && e.session == x {
        assert IsAt(s', x, HeldBy(e.c));
      } else {
        var p :| IsAt(s, x, p);
        StepMoves(s, e, s', x, p);
      }
    }
    forall x: Session, q | IsAt(s', x, q) ensures x in s'.everOpened {
      if !(e.OpenSession? && e.session == x) {
        var p := StepCameFrom(s, e, s', x, q);
      }
    }
  }

  lemma StepKeepsInv(s: State, e: Event, s': State)
    requires Inv(s) && Next(s, e, s')
    ensures Inv(s')
  {
    hide Next, OnePlace, Accounted, DeadOrAlive, LockAgrees, OperationAgrees, ReportsHold, ClosedForGood;
    StepKeepsOnePlace(s, e, s');
    StepKeepsAccount(s, e, s');
    StepKeepsDeaths(s, e, s');
    StepKeepsLocks(s, e, s');
    StepKeepsOperation(s, e, s');
    StepStaysClosed(s, e, s');
    StepKeepsReports(s, e, s');
  }

  ghost predicate StepAt(ss: seq<State>, es: seq<Event>, i: nat)
    requires |ss| == |es| + 1 && i < |es|
  {
    Next(ss[i], es[i], ss[i + 1])
  }

  ghost predicate IsRun(ss: seq<State>, es: seq<Event>) {
    |ss| == |es| + 1 && Initial(ss[0]) && forall i :: 0 <= i < |es| ==> StepAt(ss, es, i)
  }

  lemma {:induction false} RunKeepsInv(ss: seq<State>, es: seq<Event>, i: nat)
    requires IsRun(ss, es) && i < |ss|
    ensures Inv(ss[i])
  {
    hide Inv, Next, Initial;
    if i == 0 {
      InitialInv(ss[0]);
    } else {
      RunKeepsInv(ss, es, i - 1);
      assert StepAt(ss, es, i - 1);
      StepKeepsInv(ss[i - 1], es[i - 1], ss[i]);
    }
  }

  /** In every interleaving each session ever opened is in exactly one place. */
  lemma EverySessionInOnePlace(ss: seq<State>, es: seq<Event>, i: nat, x: Session) returns (p: Place)
    requires IsRun(ss, es) && i < |ss| && x in ss[i].everOpened
    ensures IsAt(ss[i], x, p) && forall q :: IsAt(ss[i], x, q) ==> q == p
  {
    RunKeepsInv(ss, es, i);
    p :| IsAt(ss[i], x, p);
  }

  /** No session is ever sent CloseSession twice. */
  lemma ClosedAtMostOnce(ss: seq<State>, es: seq<Event>, i: nat, a: nat, b: nat)
    requires IsRun(ss, es) && i < |ss| && a < b < |ss[i].sent|
    ensures ss[i].sent[a] != ss[i].sent[b]
  {
    RunKeepsInv(ss, es, i);
    assert IsAt(ss[i], ss[i].sent[a], ClosedBy(a)) && IsAt(ss[i], ss[i].sent[b], ClosedBy(b));
  }

  function CallOf(e: Event): Option<CallId> {
    match e
    case Answer(c) => Some(c)
    case ReportDead(c) => Some(c)
    case Invalidate(c) => Some(c)
    case OpenSession(c, _) => Some(c)
    case LockAndCheck(c) => Some(c)
    case Replace(c) => Some(c)
    case SendClose(c) => Some(c)
    case TakeSlot(c) => Some(c)
    case _ => None
  }

  /** The lock holder, or with a free lock any call, can always take its next step: no deadlock. */
  lemma SomeCallCanStep(ss: seq<State>, es: seq<Event>, i: nat) returns (e: Event)
    requires IsRun(ss, es) && i < |ss| && ss[i].calls != map[]
    ensures Enabled(ss[i], e) && CallOf(e).Some? && CallOf(e).value in ss[i].calls
  {
    RunKeepsInv(ss, es, i);
    var s := ss[i];
    var c :| c in s.calls && (s.lock.None? || s.lock == Some(c));
    e := match s.calls[c]
         case Using(_) => Answer(c)
         case Probing => Answer(c)
         case Reported(_) => Invalidate(c)
         case Opening => Answer(c)
         case Opened(_) => LockAndCheck(c)
         case Checked(_) => Replace(c)
         case CloseBegun => TakeSlot(c)
         case _ => SendClose(c);
  }

  function StepsLeft(p: Phase): nat {
    match p
    case Opening => 5
    case Opened(_) => 4
    case Checked(_) => 3
    case Using(_) => 2
    case Probing => 2
    case CloseBegun => 2
    case _ => 1
  }

  /** Each step of a call brings that call nearer to its return, and disturbs no other call. */
  lemma CallsProgress(s: State, e: Event, s': State)
    requires Next(s, e, s') && CallOf(e).Some?
    ensures var c := CallOf(e).value;
      && s'.calls - {c} == s.calls - {c}
      && (c in s'.calls ==> StepsLeft(s'.calls[c]) < StepsLeft(s.calls[c]))
  {
    MovesOnly(s, e, s', CallOf(e).value);
    match e
    case Answer(_) =>
    case ReportDead(_) =>
    case Invalidate(_) =>
    case OpenSession(_, _) =>
    case LockAndCheck(_) =>
    case Replace(_) =>
    case SendClose(_) =>
    case TakeSlot(_) =>
  }

  lemma MovesOnly(s: State, e: Event, s': State, c: CallId)
    requires Next(s, e, s') && CallOf(e) == Some(c)
    ensures c in s.calls && s'.calls - {c} == s.calls - {c}
  {
    assert s'.calls == s.calls - {c} || (c in s'.calls && s'.calls == s.calls[c := s'.calls[c]]);
    hide Next;
  }

  lemma OthersLeaveCall(s: State, e: Event, s': State, c: CallId)
    requires Next(s, e, s') && c in s.calls && CallOf(e) != Some(c)
    ensures c in s'.calls && s'.calls[c] == s.calls[c]
  {
    if CallOf(e).Some? {
      MovesOnly(s, e, s', CallOf(e).value);
      assert c in s.calls - {CallOf(e).value};
    }
  }

  /** A call that returned took a next step, and was in the same phase until then. */
  lemma {:induction false} NextStepOf(ss: seq<State>, es: seq<Event>, i: nat, j: nat, c: CallId) returns (n: nat)
    requires IsRun(ss, es) && i < j < |ss| && c in ss[i].calls && c !in ss[j].calls
    ensures i <= n < j && CallOf(es[n]) == Some(c) && (forall m :: i <= m < n ==> CallOf(es[m]) != Some(c))
    ensures forall m :: i <= m <= n ==> c in ss[m].calls && ss[m].calls[c] == ss[i].calls[c]
    decreases j - i
  {
    hide Initial;
    assert StepAt(ss, es, i);
    hide Next;
    if CallOf(es[i]) == Some(c) {
      n := i;
    } else {
      OthersLeaveCall(ss[i], es[i], ss[i + 1], c);
      n := NextStepOf(ss, es, i + 1, j, c);
    }
  }

  lemma SlotHeld(s: State, e: Event, s': State, c: CallId)
    requires LockAgrees(s) && Next(s, e, s') && c in s.calls && HoldsLock(s.calls[c]) && CallOf(e) != Some(c)
    ensures s'.slot == s.slot
  {
  }

  /** Nobody changes the slot under a call that holds its mutex. */
  lemma {:induction false} SlotHeldUntil(ss: seq<State>, es: seq<Event>, i: nat, n: nat, c: CallId)
    requires IsRun(ss, es) && i <= n < |ss|
    requires forall m :: i <= m < n ==> c in ss[m].calls && HoldsLock(ss[m].calls[c]) && CallOf(es[m]) != Some(c)
    ensures ss[n].slot == ss[i].slot
    decreases n - i
  {
    hide Next, Initial, Inv;
    if i < n {
      SlotHeldUntil(ss, es, i, n - 1, c);
      assert StepAt(ss, es, n - 1);
      assert LockAgrees(ss[n - 1]) by { LockAgreesAt(ss, es, n - 1); }
      SlotHeld(ss[n - 1], es[n - 1], ss[n], c);
    }
  }

  lemma LockAgreesAt(ss: seq<State>, es: seq<Event>, i: nat)
    requires IsRun(ss, es) && i < |ss|
    ensures LockAgrees(ss[i])
  {
    RunKeepsInv(ss, es, i);
  }

  lemma {:induction false} SentStays(ss: seq<State>, es: seq<Event>, i: nat, j: nat)
    requires IsRun(ss, es) && i <= j < |ss|
    ensures ss[i].sent <= ss[j].sent && ss[i].everOpened <= ss[j].everOpened
    decreases j - i
  {
    if i < j {
      SentStays(ss, es, i, j - 1);
      assert StepAt(ss, es, j - 1);
    }
  }

  /** What the only possible next step of a rebuild does in each of its phases. */
  lemma RebuildStep(s: State, e: Event, s': State, c: CallId)
    requires Next(s, e, s') && CallOf(e) == Some(c)
    ensures s.calls[c].Opened? ==>
      && e == LockAndCheck(c) && s'.slot == s.slot && s'.sent == s.sent && c in s'.calls
      && s'.calls[c] == (if s.closed then Refusing(s.calls[c].session) else Checked(s.calls[c].session))
    ensures s.calls[c].Checked? ==>
      && e == Replace(c) && s'.slot == Some(s.calls[c].session) && s'.sent == s.sent
      && (s.slot.Some? ==> c in s'.calls && s'.calls[c] == Retiring(s.slot.value)) && (s.slot.None? ==> c !in s'.calls)
    ensures s.calls[c].Refusing? || s.calls[c].Retiring? ==>
      e == SendClose(c) && s'.sent == s.sent + [s.calls[c].session] && c !in s'.calls
  {
  }

  lemma OpenedGoesOn(ss: seq<State>, es: seq<Event>, o: nat, j: nat, c: CallId, x: Session) returns (k: nat)
    requires IsRun(ss, es) && o < j < |ss| && es[o] == OpenSession(c, x) && c !in ss[j].calls
    ensures o < k < j && es[k] == LockAndCheck(c) && c in ss[k + 1].calls && ss[k + 1].slot == ss[k].slot
    ensures forall m :: o < m <= k ==> c in ss[m].calls && ss[m].calls[c] == Opened(x)
    ensures ss[k + 1].calls[c] == if ss[k].closed then Refusing(x) else Checked(x)
  {
    hide Initial;
    assert StepAt(ss, es, o);
    k := NextStepOf(ss, es, o + 1, j, c);
    assert StepAt(ss, es, k);
    hide Next;
    RebuildStep(ss[k], es[k], ss[k + 1], c);
  }

  lemma SendsAndReturns(ss: seq<State>, es: seq<Event>, i: nat, j: nat, c: CallId) returns (n: nat)
    requires IsRun(ss, es) && i < j < |ss| && c in ss[i].calls && c !in ss[j].calls
    requires ss[i].calls[c].Refusing? || ss[i].calls[c].Retiring?
    ensures i <= n < j && es[n] == SendClose(c) && ss[n + 1].sent == ss[n].sent + [ss[i].calls[c].session]
    ensures c !in ss[n + 1].calls && (forall m :: i <= m < n ==> es[m] != SendClose(c))
    ensures forall m :: i <= m <= n ==> c in ss[m].calls && ss[m].calls[c] == ss[i].calls[c]
  {
    hide Initial;
    n := NextStepOf(ss, es, i, j, c);
    assert StepAt(ss, es, n);
    hide Next;
    RebuildStep(ss[n], es[n], ss[n + 1], c);
  }

  lemma ChecksAndReplaces(ss: seq<State>, es: seq<Event>, i: nat, j: nat, c: CallId) returns (n: nat)
    requires IsRun(ss, es) && i < j < |ss| && c in ss[i].calls && c !in ss[j].calls && ss[i].calls[c].Checked?
    ensures i <= n < j && es[n] == Replace(c) && ss[n].slot == ss[i].slot
    ensures ss[n + 1].slot == Some(ss[i].calls[c].session) && (forall m :: i <= m <= n ==> c in ss[m].calls)
    ensures ss[n].slot.Some? ==> c in ss[n + 1].calls && ss[n + 1].calls[c] == Retiring(ss[n].slot.value)
    ensures ss[n].slot.None? ==> c !in ss[n + 1].calls
    ensures forall m :: i <= m <= n ==> es[m] != SendClose(c)
  {
    hide Initial;
    n := NextStepOf(ss, es, i, j, c);
    assert StepAt(ss, es, n);
    hide Next;
    RebuildStep(ss[n], es[n], ss[n + 1], c);
    SlotHeldUntil(ss, es, i, n, c);
  }

  /** Between taking the slot's mutex at `k` and returning at `r`, `c` closes at most what was in the slot. */
  ghost predicate ClosesOnlyPrior(ss: seq<State>, es: seq<Event>, k: nat, r: nat, c: CallId)
    requires |ss| == |es| + 1 && k < r < |ss|
  {
    forall m :: k <= m < r && es[m] == SendClose(c) ==>
      ss[k].slot.Some? && ss[m + 1].sent == ss[m].sent + [ss[k].slot.value]
  }

  /**
   What a rebuild that opened `x` has achieved when its call returns. If no close had begun when it took
   the slot's mutex at step `k`, then `x` was put into the slot and the session before it was closed,
   and no other; otherwise `x` was closed and is never in the slot.
   */
  lemma RebuildAchieves(ss: seq<State>, es: seq<Event>, o: nat, j: nat, c: CallId, x: Session)
    returns (k: nat, r: nat)
    requires IsRun(ss, es) && o < j < |ss| && es[o] == OpenSession(c, x) && c !in ss[j].calls
    ensures o < k < r <= j && es[k] == LockAndCheck(c)
    ensures c !in ss[r].calls && forall m :: o < m < r ==> c in ss[m].calls
    ensures !ss[k].closed ==>
      && (exists m :: k < m <= r && ss[m].slot == Some(x)) && ss[k].slot != Some(x)
      && (ss[k].slot.Some? ==> ss[k].slot.value in ss[r].sent) && ClosesOnlyPrior(ss, es, k, r, c)
    ensures ss[k].closed ==> x in ss[r].sent && forall m :: 0 <= m < |ss| ==> ss[m].slot != Some(x)
  {
    hide Next, Initial, Inv;
    k := OpenedGoesOn(ss, es, o, j, c, x);
    NotInSlot(ss, es, k, c, x);
    if ss[k].closed {
      var n := SendsAndReturns(ss, es, k + 1, j, c);
      r := n + 1;
      NeverInSlot(ss, es, o, n, c, x);
    } else {
      var n := ChecksAndReplaces(ss, es, k + 1, j, c);
      if ss[n].slot.None? {
        r := n + 1;
      } else {
        var n2 := SendsAndReturns(ss, es, n + 1, j, c);
        r := n2 + 1;
      }
      assert ss[n + 1].slot == Some(x);
    }
  }

  /** What ends the life of a session. */
  ghost predicate Ends(s: State, e: Event, s': State, x: Session) {
    e == Expire(x) || e == Shutdown || (e.SendClose? && s'.sent == s.sent + [x])
  }

  lemma LivesOn(s: State, e: Event, s': State, x: Session)
    requires Next(s, e, s') && x in s.live
    ensures x in s'.live <==> !Ends(s, e, s', x)
  {
    if e.SendClose? { assert (s.sent + [s.calls[e.c].session])[|s.sent|] == s.calls[e.c].session; }
  }

  /** A session lives from its opening until it expires, the runtime shuts down or it is sent CloseSession. */
  lemma {:induction false} OpenedLives(ss: seq<State>, es: seq<Event>, o: nat, j: nat, c: CallId, x: Session)
    requires IsRun(ss, es) && o < j < |ss| && es[o] == OpenSession(c, x)
    ensures x in ss[j].live <==> forall n :: o < n < j ==> !Ends(ss[n], es[n], ss[n + 1], x)
    decreases j
  {
    hide Initial;
    assert StepAt(ss, es, j - 1) && StepAt(ss, es, o);
    assert x in ss[o + 1].everOpened && x in ss[o + 1].live;
    hide Next;
    if o + 1 < j {
      OpenedLives(ss, es, o, j - 1, c, x);
      if x in ss[j - 1].live {
        LivesOn(ss[j - 1], es[j - 1], ss[j], x);
      } else {
        NotReborn(ss, es, o, j - 1, x);
      }
    }
  }

  lemma NotReborn(ss: seq<State>, es: seq<Event>, o: nat, i: nat, x: Session)
    requires IsRun(ss, es) && o < i < |es| && x in ss[o + 1].everOpened && x !in ss[i].live
    ensures x !in ss[i + 1].live
  {
    hide Initial;
    SentStays(ss, es, o + 1, i);
    assert StepAt(ss, es, i);
  }

  /** A session may expire under the call that uses it, which then reports it and leaves the slot empty. */
  lemma ExpiryIsReported(s: State, x: Session) returns (ss: seq<State>, es: seq<Event>)
    requires Initial(s) && s.slot == Some(x)
    ensures IsRun(ss, es) && ss[0] == s && es == [StartUse(0), Expire(x), ReportDead(0), Invalidate(0)]
    ensures ss[4].slot == None && ss[4].live == {} && ss[4].calls == map[] && ss[4].sent == []
  {
    es := [StartUse(0), Expire(x), ReportDead(0), Invalidate(0)];
    var s1 := After(s, es[0]);
    var s2 := After(s1, es[1]);
    var s3 := After(s2, es[2]);
    var s4 := After(s3, es[3]);
    ss := [s, s1, s2, s3, s4];
    assert StepAt(ss, es, 0) && StepAt(ss, es, 1) && StepAt(ss, es, 2) && StepAt(ss, es, 3);
    assert s4.calls == map[];
  }

  /** So may the whole runtime shut down under a probe, or under a launch that waits for its session. */
  lemma ShutdownIsReported(s: State, launch: bool) returns (ss: seq<State>, es: seq<Event>)
    requires Initial(s)
    ensures IsRun(ss, es) && ss[0] == s
    ensures es == [if launch then StartLaunch(0) else StartProbe(0), Shutdown, ReportDead(0), Invalidate(0)]
    ensures ss[4].slot == None && ss[4].live == {} && ss[4].calls == map[] && ss[4].down
  {
    es := [if launch then StartLaunch(0) else StartProbe(0), Shutdown, ReportDead(0), Invalidate(0)];
    var s1 := After(s, es[0]);
    var s2 := After(s1, es[1]);
    var s3 := After(s2, es[2]);
    var s4 := After(s3, es[3]);
    ss := [s, s1, s2, s3, s4];
    assert StepAt(ss, es, 0) && StepAt(ss, es, 1) && StepAt(ss, es, 2) && StepAt(ss, es, 3);
    assert s4.calls == map[];
  }

  /** Once a close took the slot it stays empty for ever. */
  lemma {:induction false} SlotStaysEmpty(ss: seq<State>, es: seq<Event>, i: nat, j: nat)
    requires IsRun(ss, es) && i < j < |ss| && es[i].TakeSlot?
    ensures ss[j].slot.None? && ss[j].closed && ss[j].emptied
  {
    RunKeepsInv(ss, es, j);
    assert StepAt(ss, es, j - 1);
    if i < j - 1 { SlotStaysEmpty(ss, es, i, j - 1); }
  }

  lemma CloseStep(s: State, e: Event, s': State, c: CallId)
    requires Next(s, e, s') && CallOf(e) == Some(c)
    ensures s.calls[c].CloseBegun? ==>
      && e == TakeSlot(c) && (s.slot.None? ==> c !in s'.calls)
      && (s.slot.Some? ==> c in s'.calls && s'.calls[c] == Closing(s.slot.value))
    ensures s.calls[c].Closing? ==> e == SendClose(c) && s'.sent == s.sent + [s.calls[c].session]
    ensures s.calls[c].Reported? ==>
      e == Invalidate(c) && s'.slot.None? && (s.slot.Some? ==> s.slot.value in s'.dropped)
  {
  }

  /** A close that returned took the slot, closed what was in it, and left it empty for good. */
  lemma CloseAchieves(ss: seq<State>, es: seq<Event>, k: nat, j: nat, c: CallId) returns (n: nat)
    requires IsRun(ss, es) && k < j < |ss| && es[k] == StartClose(c) && c !in ss[j].calls
    ensures k < n < j && es[n] == TakeSlot(c) && (ss[n].slot.Some? ==> ss[n].slot.value in ss[j].sent)
    ensures forall m :: n < m < |ss| ==> ss[m].slot.None? && ss[m].closed
  {
    hide Initial;
    assert StepAt(ss, es, k);
    n := NextStepOf(ss, es, k + 1, j, c);
    assert StepAt(ss, es, n);
    hide Next;
    CloseStep(ss[n], es[n], ss[n + 1], c);
    if ss[n].slot.Some? {
      var n2 := NextStepOf(ss, es, n + 1, j, c);
      assert StepAt(ss, es, n2);
      CloseStep(ss[n2], es[n2], ss[n2 + 1], c);
      SentStays(ss, es, n2 + 1, j);
      assert ss[n2 + 1].sent[|ss[n2].sent|] == ss[n].slot.value;
    }
    forall m | n < m < |ss| ensures ss[m].slot.None? && ss[m].closed { SlotStaysEmpty(ss, es, n, m); }
  }

  /** A call told that its session is gone empties the slot before it returns, and forgets no living session. */
  lemma ReportAchieves(ss: seq<State>, es: seq<Event>, k: nat, j: nat, c: CallId) returns (n: nat)
    requires IsRun(ss, es) && k < j < |ss| && es[k] == ReportDead(c) && c !in ss[j].calls
    ensures k < n < j && es[n] == Invalidate(c) && ss[n + 1].slot.None?
    ensures ss[n].slot.Some? ==> ss[n].slot.value !in ss[n].live && ss[n].slot.value !in ss[j].sent
  {
    hide Initial;
    assert StepAt(ss, es, k);
    n := NextStepOf(ss, es, k + 1, j, c);
    assert StepAt(ss, es, n);
    hide Next;
    CloseStep(ss[n], es[n], ss[n + 1], c);
    RunKeepsInv(ss, es, n);
    if ss[n].slot.Some? {
      DroppedStays(ss, es, n + 1, j);
      ForgottenNotSent(ss, es, j, ss[n].slot.value);
    }
  }

  lemma {:induction false} DroppedStays(ss: seq<State>, es: seq<Event>, i: nat, j: nat)
    requires IsRun(ss, es) && i <= j < |ss|
    ensures ss[i].dropped <= ss[j].dropped
    decreases j - i
  {
    if i < j {
      DroppedStays(ss, es, i, j - 1);
      assert StepAt(ss, es, j - 1);
    }
  }

  lemma ForgottenNotSent(ss: seq<State>, es: seq<Event>, j: nat, x: Session)
    requires IsRun(ss, es) && j < |ss| && x in ss[j].dropped
    ensures x !in ss[j].sent
  {
    RunKeepsInv(ss, es, j);
    forall a | 0 <= a < |ss[j].sent| ensures ss[j].sent[a] != x {
      assert IsAt(ss[j], x, Forgotten);
      assert IsAt(ss[j], x, ClosedBy(a)) <==> ss[j].sent[a] == x;
    }
  }

  /** Once a close has begun and every call has returned, the runtime holds none of the adapter's sessions. */
  lemma NoSessionLeftBehind(ss: seq<State>, es: seq<Event>, k: nat, i: nat)
    requires IsRun(ss, es) && k < i < |ss| && es[k].StartClose? && ss[i].calls == map[]
    ensures ss[i].live == {}
  {
    var n := CloseAchieves(ss, es, k, i, es[k].c);
    SlotStaysEmpty(ss, es, n, i);
    RunKeepsInv(ss, es, i);
    forall x | x in ss[i].everOpened ensures x !in ss[i].live {
      var p :| IsAt(ss[i], x, p);
      assert p.ClosedBy? ==> x in ss[i].sent;
    }
  }

  lemma NotInSlot(ss: seq<State>, es: seq<Event>, k: nat, c: CallId, x: Session)
    requires IsRun(ss, es) && k < |ss| && c in ss[k].calls && Owns(ss[k].calls[c], x)
    ensures ss[k].slot != Some(x)
  {
    RunKeepsInv(ss, es, k);
    assert IsAt(ss[k], x, HeldBy(c));
    assert IsAt(ss[k], x, InSlot) <==> ss[k].slot == Some(x);
  }

  /** A session that its opener held until it was closed was never in the slot. */
  lemma NeverInSlot(ss: seq<State>, es: seq<Event>, o: nat, n: nat, c: CallId, x: Session)
    requires IsRun(ss, es) && o < n < |es| && es[o] == OpenSession(c, x) && ss[n + 1].sent == ss[n].sent + [x]
    requires forall m :: o < m <= n ==> c in ss[m].calls && Owns(ss[m].calls[c], x)
    ensures forall m :: 0 <= m < |ss| ==> ss[m].slot != Some(x)
  {
    hide Next, Initial, Inv, IsAt;
    forall m | 0 <= m < |ss| ensures ss[m].slot != Some(x) {
      if m <= o {
        UnopenedNotInSlot(ss, es, m, o, c, x);
      } else if m <= n {
        NotInSlot(ss, es, m, c, x);
      } else {
        SentStays(ss, es, n + 1, m);
        SentNotInSlot(ss, es, m, |ss[n].sent|, x);
      }
    }
  }

  lemma UnopenedNotInSlot(ss: seq<State>, es: seq<Event>, m: nat, o: nat, c: CallId, x: Session)
    requires IsRun(ss, es) && m <= o < |es| && es[o] == OpenSession(c, x)
    ensures ss[m].slot != Some(x)
  {
    assert StepAt(ss, es, o);
    SentStays(ss, es, m, o);
    RunKeepsInv(ss, es, m);
    SlotWasOpened(ss[m]);
  }

  lemma SentNotInSlot(ss: seq<State>, es: seq<Event>, m: nat, a: nat, x: Session)
    requires IsRun(ss, es) && m < |ss| && a < |ss[m].sent| && ss[m].sent[a] == x
    ensures ss[m].slot != Some(x)
  {
    RunKeepsInv(ss, es, m);
    assert IsAt(ss[m], x, ClosedBy(a));
    assert IsAt(ss[m], x, InSlot) <==> ss[m].slot == Some(x);
  }
}
