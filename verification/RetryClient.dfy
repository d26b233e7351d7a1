/**
 The SDK's retained mutation request. One command is sent under one identity; the request may only
 be waited on for longer, never after it settled and never past the reconciliation horizon.
 */
module RetryClient {
  import opened Common
  import L = Ledger

  const MILLISECOND: nat := 1_000_000
  const MAX_WIRE_TIMEOUT: nat := 0xFFFF_FFFF
  const MIN_HORIZON: nat := 10 * 60 * 1000 * MILLISECOND

  datatype Request = Request(
    command: Option<L.Command>, created: L.Time, completed: bool, invalidated: bool, lastWait: int)

  datatype Refusal = AlreadyComplete | HorizonElapsed | ShorterWait | BadTimeout

  datatype WaitResult = Rejected(refusal: Refusal) | Settled(outcome: L.Outcome) | StillOpen

  /** A request that left the process: when, what, and the wire timeout it carried. */
  datatype Transmission = Transmission(at: L.Time, id: L.Id, command: L.Command, timeout: nat)

  function WireTimeout(timeout: int): Result<nat, Refusal> {
    if timeout <= 0 then Err(BadTimeout)
    else if timeout / MILLISECOND <= 0 || timeout / MILLISECOND > MAX_WIRE_TIMEOUT then Err(BadTimeout)
    else Ok(timeout / MILLISECOND)
  }

  /** The request after one wait was asked for, and what goes on the wire, if anything. */
  function Attempt(q: Request, now: L.Time, horizon: nat, timeout: int): (Request, Result<nat, Refusal>) {
    if q.completed then (q, Err(AlreadyComplete))
    else if q.invalidated || now - q.created > horizon then
      (q.(invalidated := true, command := None), Err(HorizonElapsed))
    else if q.lastWait != 0 && timeout < q.lastWait then (q, Err(ShorterWait))
    else if WireTimeout(timeout).Err? then (q, Err(BadTimeout))
    else (q.(lastWait := timeout), WireTimeout(timeout))
  }

  predicate Settles(reply: Option<L.Outcome>) {
    reply.Some? && (reply.value.Success? || reply.value.status == L.NotDispatched)
  }

  /** A success or a refusal before dispatch settles the request; a lost or indeterminate reply does not. */
  function Settle(q: Request, reply: Option<L.Outcome>): Request {
    if Settles(reply) then q.(completed := true, command := None) else q
  }

  /** The command stays exactly while the request may still be sent. */
  predicate Armed(q: Request) {
    && (q.command.Some? <==> !q.completed && !q.invalidated)
    && q.lastWait >= 0
  }

  /** What left the process: one command, inside the horizon, waiting no shorter each time. */
  ghost predicate Disciplined(
    created: L.Time, lastWait: int, id: L.Id, command: L.Command, horizon: nat, log: seq<Transmission>)
  {
    && (forall i :: 0 <= i < |log| ==>
          && log[i].id == id && log[i].command == command && log[i].at - created <= horizon
          && 0 < log[i].timeout <= lastWait / MILLISECOND && log[i].timeout <= MAX_WIRE_TIMEOUT)
    && (forall i, j :: 0 <= i < j < |log| ==> log[i].timeout <= log[j].timeout)
  }

  lemma LogGrows(
    created: L.Time, lastWait: int, timeout: int, id: L.Id, command: L.Command, horizon: nat, log: seq<Transmission>,
    t: Transmission)
    requires Disciplined(created, lastWait, id, command, horizon, log) && lastWait <= timeout
    requires t.id == id && t.command == command && t.at - created <= horizon
    requires 0 < t.timeout == timeout / MILLISECOND <= MAX_WIRE_TIMEOUT
    ensures Disciplined(created, timeout, id, command, horizon, log)
    ensures Disciplined(created, timeout, id, command, horizon, log + [t])
  {
  }

  class MutationRequest {
    const horizon: nat
    const id: L.Id
    const created: L.Time
    var completed: bool
    var invalidated: bool
    var lastWait: int
    var command: Option<L.Command>
    ghost const original: L.Command
    ghost var log: seq<Transmission>

    function View(): Request
      reads this
    {
      Request(command, created, completed, invalidated, lastWait)
    }

    ghost predicate Valid()
      reads this
    {
      && Armed(View()) && Disciplined(created, lastWait, id, original, horizon, log)
      && !(completed && invalidated) && (command.Some? ==> command == Some(original))
    }

    constructor (id: L.Id, command: L.Command, created: L.Time, horizon: nat)
      ensures Valid() && View() == Request(Some(command), created, false, false, 0)
      ensures log == [] && original == command && this.horizon == horizon && this.id == id
    {
      this.id := id;
      this.created, this.horizon, original := created, horizon, command;
      completed, invalidated, lastWait, this.command, log := false, false, 0, Some(command), [];
    }

    /**
     One wait, under the request's lock: at most one transmission, of the original command, and only
     while the request is open. A context that is already cancelled sends nothing but counts as a wait;
     otherwise `reply` is what the transport brings back, if anything.
     */
    method Wait(now: L.Time, timeout: int, cancelled: bool, reply: Option<L.Outcome>) returns (r: WaitResult)
      requires Valid()
      modifies this
      ensures Valid()
      ensures var tried := Attempt(old(View()), now, horizon, timeout);
        if tried.1.Err? then
          r == Rejected(tried.1.error) && View() == tried.0 && log == old(log)
        else if cancelled then
          r == StillOpen && View() == tried.0 && log == old(log)
        else
          && log == old(log) + [Transmission(now, id, original, tried.1.value)]
          && View() == Settle(tried.0, reply)
          && r == if Settles(reply) then Settled(reply.value) else StillOpen
      ensures r == Rejected(AlreadyComplete) <==> old(completed)
      ensures r == Rejected(HorizonElapsed) <==> !old(completed) && (old(invalidated) || now - created > horizon)
      ensures r == Rejected(ShorterWait) <==>
        !old(completed) && !old(invalidated) && now - created <= horizon && 0 < old(lastWait) && timeout < old(lastWait)
      ensures r == Rejected(BadTimeout) <==>
        && !old(completed) && !old(invalidated) && now - created <= horizon
        && (old(lastWait) == 0 || old(lastWait) <= timeout) && !(1_000_000 <= timeout < 0x1_0000_0000 * 1_000_000)
      ensures r.Settled? <==>
        && !r.Rejected? && !cancelled && reply.Some?
        && (reply.value.Success? || reply.value.status == L.NotDispatched)
      ensures r.Settled? ==> reply == Some(r.outcome) && completed && command.None? && invalidated == old(invalidated)
      ensures r == StillOpen ==> !completed && !invalidated && command == old(command) && lastWait == timeout
      ensures !r.Rejected? && !cancelled ==> log == old(log) + [Transmission(now, id, original, timeout / 1_000_000)]
      ensures completed <==> old(completed) || r.Settled?
      ensures old(invalidated) ==> invalidated
      ensures old(completed) || old(invalidated) ==> r.Rejected? && View() == old(View())
    {
      hide Disciplined;
      if completed { return Rejected(AlreadyComplete); }
      if invalidated || now - created > horizon {
        invalidated, command := true, None;
        return Rejected(HorizonElapsed);
      }
      if lastWait != 0 && timeout < lastWait { return Rejected(ShorterWait); }
      if timeout <= 0 { return Rejected(BadTimeout); }
      var milliseconds := timeout / MILLISECOND;
      if milliseconds <= 0 || milliseconds > MAX_WIRE_TIMEOUT { return Rejected(BadTimeout); }
      var sent := Transmission(now, id, command.value, milliseconds);
      LogGrows(created, lastWait, timeout, id, original, horizon, log, sent);
      lastWait := timeout;
      if cancelled { return StillOpen; }
      log := log + [sent];
      if reply.Some? && (reply.value.Success? || reply.value.status == L.NotDispatched) {
        completed, command := true, None;
        return Settled(reply.value);
      }
      r := StillOpen;
    }
  }
}
