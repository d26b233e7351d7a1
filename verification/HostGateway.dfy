/**
 The gateway object: an admission semaphore and a ticket table above one `WorkerRegistry`. Every
 method is one step of a call between two awaits and is proved to be the matching `Gateway` step.
 Token, protocol and request-shape checks reach the model as an optional `refusal`.
 */
module HostGateway {
  import opened Common
  import opened Gateway
  import opened HostRegistry
  import P = Placement

  datatype Failure = Protocol | Unauthorized | BadRequest | Capacity | StaleArtifact | Worker(error: WorkerError)

  datatype MutationStatus = NotApplicable | NotDispatched | Indeterminate

  datatype ErrorCode =
    ProtocolMismatch | NotAuthorized | InvalidRequest | BusyCode | ReferenceNotFound | SessionUnavailable | InternalCode

  datatype CuaError = CuaError(code: ErrorCode, retryable: bool, status: MutationStatus)

  function GatewayError(failure: Failure, mutation: bool): (e: CuaError)
    ensures e.status == (if mutation then NotDispatched else NotApplicable)
    ensures e.retryable <==> e.code.BusyCode? || e.code.InternalCode?
    ensures e.code == SessionUnavailable <==> failure == Worker(StaleLease)
    ensures e.code == BusyCode <==> failure == Capacity || failure == Worker(Busy)
    ensures e.code == ProtocolMismatch <==> failure == Protocol
    ensures e.code == NotAuthorized <==> failure == Unauthorized
    ensures e.code == InvalidRequest <==> failure == BadRequest
    ensures e.code == ReferenceNotFound <==> failure == StaleArtifact
  {
    var (code, retryable) :=
      match failure
      case Protocol => (ProtocolMismatch, false)
      case Unauthorized => (NotAuthorized, false)
      case BadRequest => (InvalidRequest, false)
      case Capacity => (BusyCode, true)
      case Worker(Busy) => (BusyCode, true)
      case StaleArtifact => (ReferenceNotFound, false)
      case Worker(StaleLease) => (SessionUnavailable, false)
      case Worker(_) => (InternalCode, true);
    CuaError(code, retryable, if mutation then NotDispatched else NotApplicable)
  }

  /** The gateway with everything the host does to its registry. */
  class WorkerGateway {
    const registry: WorkerRegistry
    const limits: Limits
    var tickets: map<string, Ticket>
    var permits: nat
    ghost var calls: map<nat, Call>
    ghost var origins: map<string, Origin>
    ghost var endpointOf: map<string, P.Endpoint>
    ghost var served: seq<Served>

    ghost function View(): State
      reads this, registry
    {
      State(registry.View(), tickets, calls, origins, endpointOf, served)
    }

    ghost predicate Valid()
      reads this, registry
    {
      registry.Valid() && Inv(limits, View()) && permits + |calls| == limits.maxInflight
    }

    constructor (registry: WorkerRegistry, limits: Limits)
      requires registry.Valid() && registry.View() == P.EMPTY
      ensures Valid() && this.registry == registry && this.limits == limits && View() == START
    {
      this.registry, this.limits := registry, limits;
      tickets, permits := map[], limits.maxInflight;
      calls, origins, endpointOf, served := map[], map[], map[], [];
      new;
      StartInv(limits);
    }

    /** Admission and lease resolution. An error here means no worker was ever asked to act. */
    method BeginExecute(
      refusal: Option<Failure>, mutation: bool, now: P.Time, lease: string, epoch: string, ghost call: nat)
      returns (r: Result<P.Endpoint, CuaError>)
      requires Valid() && registry.clock <= now && call !in calls
      modifies this, registry
      ensures Valid()
      ensures r.Ok? ==>
        && Next(registry.config, limits, old(View()), Event.BeginExecute(now, call, lease, epoch), View())
        && call in calls && calls[call] == Executing(lease, epoch, r.value)
      ensures r.Err? ==>
        && calls == old(calls) && tickets == old(tickets) && permits == old(permits)
        && r.error.status == (if mutation then NotDispatched else NotApplicable)
      ensures r.Ok? <==>
        refusal.None? && old(permits) > 0 && P.Resolve(old(registry.View()), lease, epoch, now).Some?
      ensures r.Err? && refusal.None? ==> r.error.code == if old(permits) == 0 then BusyCode else SessionUnavailable
    {
      hide Inv, P.Inv, P.Resolve, P.Live, Counted, Registrations, LiveTickets;
      if refusal.Some? { return Err(GatewayError(refusal.value, mutation)); }
      if permits == 0 { return Err(GatewayError(Capacity, mutation)); }
      var found := registry.ResolveLease(lease, epoch, now);
      if found.Ok? {
        permits := permits - 1;
        calls := calls[call := Executing(lease, epoch, found.value.1)];
      }
      ghost var e := Event.BeginExecute(now, call, lease, epoch);
      assert Next(registry.config, limits, old(View()), e, View());
      StepKeepsInv(registry.config, limits, old(View()), e, View());
      r := if found.Ok? then Ok(found.value.1) else Err(GatewayError(Worker(found.error), mutation));
    }

    /**
     Projects the worker's answer, minting a ticket for a screenshot, and returns the permit. The
     worker has already acted, and no error here claims otherwise.
     */
    method FinishExecute(
      now: P.Time, lease: string, epoch: string, screenshot: Option<Artifact>, minted: string,
      ghost call: nat, ghost endpoint: P.Endpoint)
      returns (r: Result<Option<string>, CuaError>)
      requires Valid() && call in calls && calls[call] == Executing(lease, epoch, endpoint) && minted !in origins
      modifies this
      ensures Valid() && permits == old(permits) + 1
      ensures Next(registry.config, limits, old(View()), Event.FinishExecute(now, call, screenshot, minted), View())
      ensures r.Err? ==> r.error.status == NotApplicable
      ensures r.Err? <==>
        screenshot.Some? &&
        (screenshot.value.byteLength == 0 || screenshot.value.byteLength > limits.maxBytes ||
         |LiveTickets(old(tickets), now)| >= limits.maxTickets)
      ensures r.Ok? ==> r.value == (if screenshot.Some? then Some(minted) else None)
      ensures r == Ok(Some(minted)) ==>
        && minted in tickets
        && tickets[minted] == Ticket(lease, epoch, screenshot.value, now + limits.ticketTtl)
    {
      hide Inv, P.Inv, P.Resolve, P.Live, Counted, Registrations, LiveTickets;
      OneFewerKey(calls, call);
      calls, permits := calls - {call}, permits + 1;
      if screenshot.None? {
        r := Ok(None);
      } else {
        var ticket := MintTicket(now, lease, epoch, screenshot.value, minted, endpoint);
        r := if ticket.Ok? then Ok(Some(ticket.value)) else Err(ticket.error);
      }
      ghost var e := Event.FinishExecute(now, call, screenshot, minted);
      assert Next(registry.config, limits, old(View()), e, View());
      hide Next;
      StepKeepsInv(registry.config, limits, old(View()), e, View());
    }

    method MintTicket(
      now: P.Time, lease: string, epoch: string, artifact: Artifact, minted: string, ghost endpoint: P.Endpoint)
      returns (r: Result<string, CuaError>)
      modifies this`tickets, this`origins
      ensures r.Ok? ==>
        && r.value == minted && Mintable(limits, artifact) && |LiveTickets(old(tickets), now)| < limits.maxTickets
        && tickets ==
           LiveTickets(old(tickets), now)[minted := Ticket(lease, epoch, artifact, now + limits.ticketTtl)]
        && origins == old(origins)[minted := Origin(endpoint, lease, epoch, artifact, now)]
      ensures r.Err? ==>
        && r.error.status == NotApplicable && origins == old(origins)
        && if Mintable(limits, artifact)
           then tickets == LiveTickets(old(tickets), now) && |tickets| >= limits.maxTickets
           else tickets == old(tickets)
    {
      if !Mintable(limits, artifact) { return Err(GatewayError(StaleArtifact, false)); }
      PurgeTickets(now);
      if |tickets| >= limits.maxTickets { return Err(GatewayError(Capacity, false)); }
      tickets := tickets[minted := Ticket(lease, epoch, artifact, now + limits.ticketTtl)];
      origins := origins[minted := Origin(endpoint, lease, epoch, artifact, now)];
      r := Ok(minted);
    }

    method PurgeTickets(now: P.Time)
      modifies this`tickets
      ensures tickets == LiveTickets(old(tickets), now)
    {
      tickets := map t | t in tickets && tickets[t].expires > now :: tickets[t];
    }

    method BeginFetch(
      refusal: Option<Failure>, now: P.Time, lease: string, epoch: string, ticket: string, ghost call: nat)
      returns (r: Result<P.Endpoint, CuaError>)
      requires Valid() && registry.clock <= now && call !in calls
      modifies this, registry
      ensures Valid()
      ensures r.Ok? ==>
        && Next(registry.config, limits, old(View()), Event.BeginFetch(now, call, lease, epoch, ticket), View())
        && call in calls && calls[call] == Fetching(lease, epoch, r.value, ticket)
      ensures r.Ok? <==>
        refusal.None? && old(permits) > 0 && P.Resolve(old(registry.View()), lease, epoch, now).Some?
      ensures r.Err? ==>
        calls == old(calls) && tickets == old(tickets) && permits == old(permits) && r.error.status == NotApplicable
      ensures r.Err? && refusal.None? ==> r.error.code == if old(permits) == 0 then BusyCode else SessionUnavailable
    {
      hide Inv, P.Inv, P.Resolve, P.Live, Counted, Registrations, LiveTickets;
      if refusal.Some? { return Err(GatewayError(refusal.value, false)); }
      if permits == 0 { return Err(GatewayError(Capacity, false)); }
      var found := registry.ResolveLease(lease, epoch, now);
      if found.Ok? {
        permits := permits - 1;
        calls := calls[call := Fetching(lease, epoch, found.value.1, ticket)];
      }
      ghost var e := Event.BeginFetch(now, call, lease, epoch, ticket);
      assert Next(registry.config, limits, old(View()), e, View());
      StepKeepsInv(registry.config, limits, old(View()), e, View());
      r := if found.Ok? then Ok(found.value.1) else Err(GatewayError(Worker(found.error), false));
    }

    /** Looks the ticket up under the presented lease and epoch; a miss returns the permit. */
    method FindTicket(
      now: P.Time, lease: string, epoch: string, ticket: string, ghost call: nat, ghost endpoint: P.Endpoint)
      returns (r: Result<Artifact, CuaError>)
      requires Valid() && call in calls && calls[call] == Fetching(lease, epoch, endpoint, ticket)
      modifies this
      ensures Valid()
      ensures Next(registry.config, limits, old(View()), Event.FindTicket(now, call), View())
      ensures r.Ok? ==> call in calls && calls[call] == Reading(lease, epoch, endpoint, ticket, r.value, now)
      ensures r.Err? ==> call !in calls && permits == old(permits) + 1
      ensures r.Err? ==> r.error == CuaError(ReferenceNotFound, false, NotApplicable)
      ensures r.Ok? <==>
        && ticket in old(tickets) && now < old(tickets)[ticket].expires
        && old(tickets)[ticket].lease == lease && old(tickets)[ticket].epoch == epoch
      ensures r.Ok? ==> r.value == old(tickets)[ticket].artifact
    {
      hide Inv, P.Inv, P.Resolve, P.Live, Counted, Registrations;
      PurgeTickets(now);
      if ticket !in tickets || tickets[ticket].lease != lease || tickets[ticket].epoch != epoch {
        OneFewerKey(calls, call);
        calls, permits := calls - {call}, permits + 1;
        r := Err(GatewayError(StaleArtifact, false));
      } else {
        var artifact := tickets[ticket].artifact;
        assert calls.Keys == calls[call := Reading(lease, epoch, endpoint, ticket, artifact, now)].Keys;
        calls := calls[call := Reading(lease, epoch, endpoint, ticket, artifact, now)];
        r := Ok(artifact);
      }
      StepKeepsInv(registry.config, limits, old(View()), Event.FindTicket(now, call), View());
    }

    /** The worker's answer to a read: the artifact is handed out or the read failed. The permit comes back anyway. */
    method FinishFetch(now: P.Time, artifact: Artifact, readable: bool, ghost call: nat) returns (r: Option<Artifact>)
      requires Valid() && call in calls && calls[call].Reading? && calls[call].artifact == artifact
      requires calls[call].foundAt <= now
      modifies this
      ensures Valid() && permits == old(permits) + 1 && call !in calls
      ensures r == if readable then Some(artifact) else None
      ensures readable ==> Next(registry.config, limits, old(View()), Event.ServeFetch(now, call), View())
      ensures !readable ==> Next(registry.config, limits, old(View()), Event.Abandon(call), View())
    {
      hide Inv, P.Inv, P.Resolve, P.Live, Counted, Registrations, LiveTickets;
      ghost var e := if readable then Event.ServeFetch(now, call) else Event.Abandon(call);
      if readable { served := served + [Answer(calls[call], now)]; }
      OneFewerKey(calls, call);
      calls, permits := calls - {call}, permits + 1;
      StepKeepsInv(registry.config, limits, old(View()), e, View());
      r := if readable then Some(artifact) else None;
    }

    /** A call that ends without an answer gives its permit back. */
    method Abandon(ghost call: nat)
      requires Valid() && call in calls
      modifies this
      ensures Valid() && permits == old(permits) + 1
      ensures Next(registry.config, limits, old(View()), Event.Abandon(call), View())
    {
      hide Inv, P.Inv, P.Resolve, P.Live, Counted, Registrations, LiveTickets;
      OneFewerKey(calls, call);
      calls, permits := calls - {call}, permits + 1;
      StepKeepsInv(registry.config, limits, old(View()), Event.Abandon(call), View());
    }

    method RegisterWorker(
      now: P.Time, offered: P.Registration, environmentValid: bool, maxLeases: nat, freshId: string, freshEpoch: string)
      returns (r: Result<P.Registration, WorkerError>)
      requires Valid() && registry.clock <= now
      requires freshId !in registry.issued && freshEpoch !in registry.issued && freshId != freshEpoch
      modifies this`endpointOf, registry
      ensures Valid()
      ensures r.Ok? <==>
        && 0 < maxLeases <= registry.config.maxLeases && environmentValid
        && |old(registry.workers)| < registry.config.maxWorkers
      ensures r.Ok? ==>
        && r.value == offered.(epoch := freshEpoch, capacity := maxLeases)
        && Next(registry.config, limits, old(View()), Event.Host(P.Register(now, freshId, r.value)), View())
      ensures r.Err? ==>
        View() == old(View()) || Next(registry.config, limits, old(View()), Event.Host(P.Sweep(now)), View())
    {
      hide Inv, P.Inv, P.Resolve, P.Live, Counted, Registrations, LiveTickets;
      r := registry.Register(now, offered, environmentValid, maxLeases, freshId, freshEpoch);
      ghost var e := P.Sweep(now);
      if r.Ok? {
        endpointOf := endpointOf[freshEpoch := offered.endpoint];
        e := P.Register(now, freshId, r.value);
      }
      if View() != old(View()) { StepKeepsInv(registry.config, limits, old(View()), Event.Host(e), View()); }
    }

    method UnregisterWorker(id: string) returns (removed: bool)
      requires Valid()
      modifies registry
      ensures Valid() && removed == (id in old(registry.workers))
      ensures if removed then Next(registry.config, limits, old(View()), Event.Host(P.Unregister(id)), View())
              else View() == old(View())
    {
      hide Inv, P.Inv, P.Resolve, P.Live, Counted, Registrations, LiveTickets;
      removed := registry.Unregister(id);
      if removed { StepKeepsInv(registry.config, limits, old(View()), Event.Host(P.Unregister(id)), View()); }
    }

    method AcquireLease(
      q: P.Requirements, ttl: nat, now: P.Time, placed: P.Time, freshId: string, wallClockFailure: Option<WorkerError>)
      returns (r: Result<P.Lease, WorkerError>)
      requires Valid() && registry.clock <= now <= placed && freshId !in registry.issued
      modifies registry
      ensures Valid()
      ensures r.Ok? <==>
        var live := P.Live(old(registry.View()), now);
        && 0 < ttl <= registry.config.maxTtl && wallClockFailure.None?
        && |live.leases| < registry.config.maxLeases && exists w :: P.Eligible(live, q, w)
      ensures r.Ok? ==>
        var e := P.Acquire(now, placed, q, ttl, freshId, r.value.worker);
        && Next(registry.config, limits, old(View()), Event.Host(e), View())
        && freshId in registry.leases && registry.leases[freshId] == r.value
      ensures r.Ok? ==>
        var w, reg := r.value.worker, old(registry.View()).workers;
        && w in reg && r.value.epoch == reg[w].epoch && r.value.expires == placed + ttl
        && (q.platform.Some? ==> reg[w].platform == q.platform.value)
        && (q.kind.Some? ==> reg[w].kind == q.kind.value)
        && (forall c :: c in q.capabilities ==> c in reg[w].capabilities)
        && (q.worker.Some? ==> w == q.worker.value)
      ensures r.Err? ==>
        View() == old(View()) || Next(registry.config, limits, old(View()), Event.Host(P.Sweep(now)), View())
    {
      hide Inv, P.Inv, P.Resolve, P.Live, Counted, Registrations, LiveTickets, P.Eligible, P.IsPlacement;
      r := registry.Acquire(q, ttl, now, placed, freshId, wallClockFailure);
      ghost var e := if r.Ok? then P.Acquire(now, placed, q, ttl, freshId, r.value.worker) else P.Sweep(now);
      if View() != old(View()) { StepKeepsInv(registry.config, limits, old(View()), Event.Host(e), View()); }
    }

    method ReleaseLease(id: string) returns (removed: bool)
      requires Valid()
      modifies registry
      ensures Valid() && removed == (id in old(registry.leases))
      ensures if removed then Next(registry.config, limits, old(View()), Event.Host(P.Release(id)), View())
              else View() == old(View())
    {
      hide Inv, P.Inv, P.Resolve, P.Live, Counted, Registrations, LiveTickets;
      removed := registry.Release(id);
      if removed { StepKeepsInv(registry.config, limits, old(View()), Event.Host(P.Release(id)), View()); }
    }
  }

  lemma OnlyWorkerLeased(cfg: P.Config, w: P.Registration, r: P.Registry, on: string, r': P.Registry)
    requires w.epoch == "epoch" && r == P.Registry(map["worker" := w], map[], {"worker", "epoch"}, 0)
    requires P.Next(cfg, r, P.Acquire(0, 0, P.ANY_WORKER, 1, "lease", on), r')
    ensures r'.clock == 0 && P.Resolve(r', "lease", "epoch", 0) == Some(w.endpoint)
  {
    P.PlacementIsEligible(P.Live(r, 0), P.ANY_WORKER, on);
    hide P.IsPlacement;
    assert P.Live(r', 0).leases["lease"] == P.Lease("worker", "epoch", 1);
  }

  lemma OnlyWorkerEligible(w: P.Registration, r: P.Registry)
    requires w.capacity > 0 && r == P.Registry(map["worker" := w], map[], {"worker", "epoch"}, 0)
    ensures P.Live(r, 0) == r && P.Eligible(r, P.ANY_WORKER, "worker")
  {
    assert P.LeasesOn(map[], "worker") == {};
  }

  lemma OnlyWorkerRegistered(cfg: P.Config, w: P.Registration, r: P.Registry)
    requires P.Next(cfg, P.EMPTY, P.Register(0, "worker", w), r) && w.epoch == "epoch"
    ensures r == P.Registry(map["worker" := w], map[], {"worker", "epoch"}, 0)
  {
    assert P.Live(P.EMPTY, 0).leases == map[];
  }

  /** A host with one worker and one lease on it, built through the gateway. */
  method OneLease(offered: P.Registration, limits: Limits) returns (g: WorkerGateway)
    ensures fresh(g) && fresh(g.registry) && g.Valid() && g.limits == limits && g.registry.clock == 0
    ensures g.calls == map[] && g.tickets == map[] && g.origins == map[] && g.served == []
    ensures g.permits == limits.maxInflight
    ensures P.Resolve(g.registry.View(), "lease", "epoch", 0) == Some(offered.endpoint)
  {
    hide Inv, P.Inv, P.Next, P.Resolve, P.Eligible, P.Live, Counted, Registrations;
    var registry := new WorkerRegistry(P.Config(1, 1, 1));
    g := new WorkerGateway(registry, limits);
    var w := offered.(epoch := "epoch", capacity := 1);
    assert |registry.workers| == 0 by { NoWorkers(registry.workers, registry.View()); }
    var worker := g.RegisterWorker(0, offered, true, 1, "worker", "epoch");
    OnlyWorkerRegistered(registry.config, w, registry.View());
    OnlyWorkerEligible(w, registry.View());
    ghost var before := registry.View();
    var lease := g.AcquireLease(P.ANY_WORKER, 1, 0, 0, "lease", None);
    OnlyWorkerLeased(registry.config, w, before, lease.value.worker, registry.View());
  }

  lemma NoWorkers(workers: map<string, WorkerEntry>, view: P.Registry)
    requires Registrations(workers) == view.workers == map[]
    ensures |workers| == 0
  {
    assert forall w :: w in workers ==> w in Registrations(workers);
  }

  lemma ResolveSurvivesSweep(cfg: P.Config, r: P.Registry, r': P.Registry, now: P.Time)
    requires P.Next(cfg, r, P.Sweep(now), r')
    ensures r'.clock == now
    ensures forall lease, epoch :: P.Resolve(r', lease, epoch, now) == P.Resolve(r, lease, epoch, now)
  {
  }

  /** The same host after one screenshot was dispatched and its ticket minted. */
  method OneTicket(offered: P.Registration, limits: Limits, artifact: Artifact) returns (g: WorkerGateway)
    requires limits.maxInflight > 0 && limits.maxTickets > 0 && limits.ticketTtl > 0 && Mintable(limits, artifact)
    ensures fresh(g) && fresh(g.registry) && g.Valid() && g.limits == limits && g.registry.clock == 0
    ensures g.calls == map[] && g.served == [] && g.permits == limits.maxInflight
    ensures P.Resolve(g.registry.View(), "lease", "epoch", 0).Some?
    ensures g.tickets == map["ticket" := Ticket("lease", "epoch", artifact, limits.ticketTtl)]
    ensures "ticket" in g.origins && g.origins["ticket"].mintedAt == 0
  {
    hide Inv, P.Inv, P.Next, P.Resolve, Counted, Registrations, LiveTickets;
    g := OneLease(offered, limits);
    ghost var r0 := g.registry.View();
    var dispatched := g.BeginExecute(None, false, 0, "lease", "epoch", 0);
    ResolveSurvivesSweep(g.registry.config, r0, g.registry.View(), 0);
    NoLiveTickets(g.tickets);
    var minted := g.FinishExecute(0, "lease", "epoch", Some(artifact), "ticket", 0, dispatched.value);
  }

  lemma NoLiveTickets(tickets: map<string, Ticket>)
    requires tickets == map[]
    ensures LiveTickets(tickets, 0) == map[] && |LiveTickets(tickets, 0)| == 0
  {
  }

  /**
   A whole fetch, from an empty host to bytes read any time after the ticket expired: the deadline is
   on the lookup, and nothing repeats it when the worker answers.
   */
  method LateRead(offered: P.Registration, limits: Limits, artifact: Artifact, late: nat) returns (g: WorkerGateway)
    requires limits.maxInflight > 0 && limits.maxTickets > 0 && limits.ticketTtl > 0 && Mintable(limits, artifact)
    ensures fresh(g) && g.Valid() && g.limits == limits
    ensures |g.served| == 1 && g.served[0].ticket in g.origins
    ensures g.served[0].readAt == g.origins[g.served[0].ticket].mintedAt + limits.ticketTtl + late
  {
    hide Inv, P.Inv, P.Next, P.Resolve, Counted, Registrations, LiveTickets;
    g := OneTicket(offered, limits, artifact);
    var fetched := g.BeginFetch(None, 0, "lease", "epoch", "ticket", 0);
    var found := g.FindTicket(0, "lease", "epoch", "ticket", 0, fetched.value);
    var answer := g.FinishFetch(limits.ticketTtl + late, artifact, true, 0);
  }
}
