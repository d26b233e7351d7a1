/**
 The lease- and epoch-bound gateway above the registry. Each remote call is split at its awaits:
 an execute resolves its lease, waits for the worker's answer, and then mints a screenshot ticket;
 a fetch resolves its lease, looks its ticket up, and then reads from the worker. Any registry step
 and any other call may fall between two steps of one call.
 */
module Gateway {
  import opened Common
  import P = Placement

  datatype Artifact = Artifact(artifactRef: string, byteLength: nat, sha256: string)

  datatype Ticket = Ticket(lease: string, epoch: string, artifact: Artifact, expires: P.Time)

  datatype Limits = Limits(maxInflight: nat, maxTickets: nat, ticketTtl: nat, maxBytes: nat)

  /** A call in flight, with the endpoint its lease resolved to. Each holds one admission permit. */
  datatype Call =
    | Executing(lease: string, epoch: string, endpoint: P.Endpoint)
    | Fetching(lease: string, epoch: string, endpoint: P.Endpoint, ticket: string)
    | Reading(lease: string, epoch: string, endpoint: P.Endpoint, ticket: string, artifact: Artifact, foundAt: P.Time)

  /** What was true when a ticket was minted: the endpoint whose dispatch produced the screenshot. */
  datatype Origin = Origin(
    endpoint: P.Endpoint, lease: string, epoch: string, artifact: Artifact, mintedAt: P.Time)

  /** One artifact handed out: when its ticket was looked up, and when the worker answered the read. */
  datatype Served = Served(
    ticket: string, endpoint: P.Endpoint, lease: string, epoch: string, artifact: Artifact,
    foundAt: P.Time, readAt: P.Time)

  /** `origins`, `endpointOf` and `served` are history: nothing reads them to decide a step. */
  datatype State = State(
    registry: P.Registry, tickets: map<string, Ticket>, calls: map<nat, Call>,
    origins: map<string, Origin>, endpointOf: map<string, P.Endpoint>, served: seq<Served>)

  ghost function LiveTickets(tickets: map<string, Ticket>, now: P.Time): map<string, Ticket> {
    map t | t in tickets && now < tickets[t].expires :: tickets[t]
  }

  predicate Mintable(lim: Limits, artifact: Artifact) {
    0 < artifact.byteLength <= lim.maxBytes
  }

  datatype Event =
    | Host(e: P.Event)
    | BeginExecute(now: P.Time, call: nat, lease: string, epoch: string)
    | FinishExecute(now: P.Time, call: nat, screenshot: Option<Artifact>, minted: string)
    | BeginFetch(now: P.Time, call: nat, lease: string, epoch: string, ticket: string)
    | FindTicket(now: P.Time, call: nat)
    | ServeFetch(now: P.Time, call: nat)
    | Abandon(call: nat)

  ghost function EndpointsAfter(s: State, e: P.Event): map<string, P.Endpoint> {
    if e.Register? then s.endpointOf[e.worker.epoch := e.worker.endpoint] else s.endpointOf
  }

  ghost predicate Admitted(lim: Limits, s: State, call: nat) {
    |s.calls| < lim.maxInflight && call !in s.calls
  }

  ghost predicate Next(cfg: P.Config, lim: Limits, s: State, e: Event, s': State) {
    match e
    case Host(step) =>
      && P.Next(cfg, s.registry, step, s'.registry)
      && s' == s.(registry := s'.registry, endpointOf := EndpointsAfter(s, step))
    case BeginExecute(now, call, lease, epoch) =>
      && Admitted(lim, s, call)
      && P.Next(cfg, s.registry, P.Sweep(now), s'.registry)
      && var found := P.Resolve(s.registry, lease, epoch, now);
         s' == s.(registry := s'.registry,
                  calls := if found.Some? then s.calls[call := Executing(lease, epoch, found.value)] else s.calls)
    case FinishExecute(now, call, screenshot, minted) =>
      && call in s.calls && s.calls[call].Executing?
      && var c := s.calls[call];
         var live := LiveTickets(s.tickets, now);
         if screenshot.None? || !Mintable(lim, screenshot.value) then
           s' == s.(calls := s.calls - {call})
         else if |live| >= lim.maxTickets then
           s' == s.(calls := s.calls - {call}, tickets := live)
         else
           && minted !in s.origins
           && s' == s.(calls := s.calls - {call},
                       tickets := live[minted := Ticket(c.lease, c.epoch, screenshot.value, now + lim.ticketTtl)],
                       origins := s.origins[minted := Origin(c.endpoint, c.lease, c.epoch, screenshot.value, now)])
    case BeginFetch(now, call, lease, epoch, ticket) =>
      && Admitted(lim, s, call)
      && P.Next(cfg, s.registry, P.Sweep(now), s'.registry)
      && var found := P.Resolve(s.registry, lease, epoch, now);
         s' == s.(registry := s'.registry,
                  calls := if found.Some? then s.calls[call := Fetching(lease, epoch, found.value, ticket)]
                           else s.calls)
    case FindTicket(now, call) =>
      && call in s.calls && s.calls[call].Fetching?
      && var c := s.calls[call];
         var live := LiveTickets(s.tickets, now);
         if c.ticket in live && live[c.ticket].lease == c.lease && live[c.ticket].epoch == c.epoch then
           var reading := Reading(c.lease, c.epoch, c.endpoint, c.ticket, live[c.ticket].artifact, now);
           s' == s.(tickets := live, calls := s.calls[call := reading])
         else
           s' == s.(tickets := live, calls := s.calls - {call})
    case ServeFetch(now, call) =>
      && call in s.calls && s.calls[call].Reading? && s.calls[call].foundAt <= now
      && s' == s.(calls := s.calls - {call}, served := s.served + [Answer(s.calls[call], now)])
    case Abandon(call) =>
      call in s.calls && s' == s.(calls := s.calls - {call})
  }

  /** Each epoch belongs to one registration, so it fixes the endpoint for ever. */
  ghost predicate EpochsBind(s: State) {
    && (forall e :: e in s.endpointOf ==> e in s.registry.issued)
    && (forall w :: w in s.registry.workers ==>
          var x := s.registry.workers[w]; x.epoch in s.endpointOf && s.endpointOf[x.epoch] == x.endpoint)
    && (forall c :: c in s.calls ==>
          s.calls[c].epoch in s.endpointOf && s.endpointOf[s.calls[c].epoch] == s.calls[c].endpoint)
  }

  ghost predicate TicketsBind(lim: Limits, s: State) {
    forall t :: t in s.tickets ==>
      && t in s.origins
      && var o := s.origins[t];
         && s.tickets[t] == Ticket(o.lease, o.epoch, o.artifact, o.mintedAt + lim.ticketTtl)
         && o.epoch in s.endpointOf && s.endpointOf[o.epoch] == o.endpoint
  }

  ghost predicate ReadsBind(lim: Limits, s: State) {
    forall c :: c in s.calls && s.calls[c].Reading? ==> FromMint(lim, s.origins, Answer(s.calls[c], s.calls[c].foundAt))
  }

  ghost predicate ServedBind(lim: Limits, s: State) {
    forall x :: x in s.served ==> FromMint(lim, s.origins, x)
  }

  function Answer(c: Call, readAt: P.Time): Served
    requires c.Reading?
  {
    Served(c.ticket, c.endpoint, c.lease, c.epoch, c.artifact, c.foundAt, readAt)
  }

  /** The bytes come from the minting dispatch's endpoint, under its lease and epoch, by a ticket looked up in time. */
  ghost predicate FromMint(lim: Limits, origins: map<string, Origin>, x: Served) {
    && x.ticket in origins
    && var o := origins[x.ticket];
       && o.endpoint == x.endpoint && o.lease == x.lease && o.epoch == x.epoch && o.artifact == x.artifact
       && x.foundAt < o.mintedAt + lim.ticketTtl && x.foundAt <= x.readAt
  }

  ghost predicate Bounded(lim: Limits, s: State) {
    |s.tickets| <= lim.maxTickets && |s.calls| <= lim.maxInflight
  }

  ghost predicate Inv(lim: Limits, s: State) {
    EpochsBind(s) && TicketsBind(lim, s) && ReadsBind(lim, s) && ServedBind(lim, s) && Bounded(lim, s)
  }

  const START := State(P.EMPTY, map[], map[], map[], map[], [])

  lemma HostStepKeepsInv(cfg: P.Config, lim: Limits, s: State, e: Event, s': State)
    requires Inv(lim, s) && Next(cfg, lim, s, e, s') && e.Host?
    ensures Inv(lim, s')
  {
    match e.e
    case Sweep(_) =>
    case Register(_, _, _) =>
    case Unregister(_) =>
    case Acquire(_, _, _, _, _, _) =>
    case Release(_) =>
  }

  lemma ResolveBound(s: State, lease: string, epoch: string, now: P.Time)
    requires EpochsBind(s) && P.Resolve(s.registry, lease, epoch, now).Some?
    ensures epoch in s.endpointOf && s.endpointOf[epoch] == P.Resolve(s.registry, lease, epoch, now).value
  {
  }

  lemma BeginKeepsInv(cfg: P.Config, lim: Limits, s: State, e: Event, s': State)
    requires Inv(lim, s) && Next(cfg, lim, s, e, s') && (e.BeginExecute? || e.BeginFetch?)
    ensures Inv(lim, s')
  {
    SweepKeeps(cfg, s.registry, s'.registry, e.now);
    var found := P.Resolve(s.registry, e.lease, e.epoch, e.now);
    if found.Some? { ResolveBound(s, e.lease, e.epoch, e.now); }
    hide P.Next, P.Resolve, LiveTickets, FromMint, EpochsBind, TicketsBind, ReadsBind, ServedBind, Bounded;
    if found.Some? {
      CallAdmitted(lim, s, e.call, s'.calls[e.call], s');
    } else {
      CallRefused(lim, s, s');
    }
  }

  /** A new call whose endpoint its epoch fixes, and that has read nothing yet, keeps every binding. */
  lemma CallAdmitted(lim: Limits, s: State, call: nat, c: Call, s': State)
    requires Inv(lim, s) && Admitted(lim, s, call) && !c.Reading?
    requires c.epoch in s.endpointOf && s.endpointOf[c.epoch] == c.endpoint
    requires s' == s.(registry := s'.registry, calls := s.calls[call := c])
    requires s'.registry.workers == s.registry.workers && s'.registry.issued == s.registry.issued
    ensures Inv(lim, s')
  {
    OneMoreKey(s.calls, call, c);
    hide FromMint;
    assert EpochsBind(s') by { hide TicketsBind, ReadsBind, ServedBind, Bounded; }
    assert ReadsBind(lim, s') by { hide TicketsBind, EpochsBind, ServedBind, Bounded; }
  }

  lemma CallRefused(lim: Limits, s: State, s': State)
    requires Inv(lim, s) && s' == s.(registry := s'.registry)
    requires s'.registry.workers == s.registry.workers && s'.registry.issued == s.registry.issued
    ensures Inv(lim, s')
  {
    hide FromMint;
  }

  lemma SweepKeeps(cfg: P.Config, r: P.Registry, r': P.Registry, now: P.Time)
    requires P.Next(cfg, r, P.Sweep(now), r')
    ensures r'.workers == r.workers && r'.issued == r.issued
  {
  }

  lemma FinishExecuteBounded(cfg: P.Config, lim: Limits, s: State, e: Event, s': State)
    requires Bounded(lim, s) && Next(cfg, lim, s, e, s') && e.FinishExecute?
    ensures Bounded(lim, s')
  {
    FewerKeys(s.calls, s'.calls);
    var live := LiveTickets(s.tickets, e.now);
    FewerKeys(s.tickets, live);
    if s'.tickets != s.tickets && s'.tickets != live {
      OneMoreKey(live, e.minted, s'.tickets[e.minted]);
    }
  }

  /** Recording a fresh ticket for a call whose endpoint its epoch fixes keeps every binding. */
  lemma MintBinds(lim: Limits, s: State, c: Call, artifact: Artifact, now: P.Time, minted: string, s': State)
    requires Inv(lim, s) && minted !in s.origins
    requires c.epoch in s.endpointOf && s.endpointOf[c.epoch] == c.endpoint
    requires s'.calls.Keys <= s.calls.Keys && forall k :: k in s'.calls ==> s'.calls[k] == s.calls[k]
    requires var ticket := Ticket(c.lease, c.epoch, artifact, now + lim.ticketTtl);
      s' == s.(calls := s'.calls, tickets := LiveTickets(s.tickets, now)[minted := ticket],
               origins := s.origins[minted := Origin(c.endpoint, c.lease, c.epoch, artifact, now)])
    ensures EpochsBind(s') && TicketsBind(lim, s') && ReadsBind(lim, s') && ServedBind(lim, s')
  {
    MintKeeps(lim, s.origins, s'.origins);
    LiveWithin(s.tickets, now);
    hide FromMint, LiveTickets, Bounded;
    assert EpochsBind(s') by { hide TicketsBind, ReadsBind, ServedBind; }
    assert ReadsBind(lim, s') by { hide TicketsBind, EpochsBind, ServedBind; }
    assert ServedBind(lim, s') by { hide TicketsBind, EpochsBind, ReadsBind; }
    assert TicketsBind(lim, s') by { hide ReadsBind, ServedBind, EpochsBind; }
  }

  lemma MintKeeps(lim: Limits, origins: map<string, Origin>, origins': map<string, Origin>)
    requires forall t :: t in origins ==> t in origins' && origins'[t] == origins[t]
    ensures forall x :: FromMint(lim, origins, x) ==> FromMint(lim, origins', x)
  {
  }

  lemma FinishExecuteBinds(cfg: P.Config, lim: Limits, s: State, e: Event, s': State)
    requires Inv(lim, s) && Next(cfg, lim, s, e, s') && e.FinishExecute?
    ensures EpochsBind(s') && TicketsBind(lim, s') && ReadsBind(lim, s') && ServedBind(lim, s')
  {
    hide P.Next, P.Resolve, EndpointsAfter, Bounded, TicketsBind, ReadsBind, ServedBind, LiveTickets;
    LiveWithin(s.tickets, e.now);
    assert s.calls[e.call].epoch in s.endpointOf && s.endpointOf[s.calls[e.call].epoch] == s.calls[e.call].endpoint;
    hide EpochsBind;
    if s'.origins != s.origins {
      MintBinds(lim, s, s.calls[e.call], e.screenshot.value, e.now, e.minted, s');
    } else {
      DropBinds(lim, s, s');
    }
  }

  lemma LiveWithin(tickets: map<string, Ticket>, now: P.Time)
    ensures forall t :: t in LiveTickets(tickets, now) ==> t in tickets && LiveTickets(tickets, now)[t] == tickets[t]
  {
  }

  /** Losing calls and tickets keeps every binding. */
  lemma DropBinds(lim: Limits, s: State, s': State)
    requires Inv(lim, s) && s' == s.(calls := s'.calls, tickets := s'.tickets)
    requires forall k :: k in s'.calls ==> k in s.calls && s'.calls[k] == s.calls[k]
    requires forall t :: t in s'.tickets ==> t in s.tickets && s'.tickets[t] == s.tickets[t]
    ensures EpochsBind(s') && TicketsBind(lim, s') && ReadsBind(lim, s') && ServedBind(lim, s')
  {
    assert EpochsBind(s') by { hide TicketsBind, ReadsBind, ServedBind; }
    assert ReadsBind(lim, s') by { hide TicketsBind, EpochsBind, ServedBind, FromMint; }
    assert ServedBind(lim, s') by { hide TicketsBind, EpochsBind, ReadsBind, FromMint; }
    assert TicketsBind(lim, s') by { hide ReadsBind, ServedBind, EpochsBind; }
  }

  lemma FetchStepBounded(cfg: P.Config, lim: Limits, s: State, e: Event, s': State)
    requires Bounded(lim, s) && Next(cfg, lim, s, e, s') && (e.FindTicket? || e.ServeFetch? || e.Abandon?)
    ensures Bounded(lim, s')
  {
    assert s'.calls.Keys <= s.calls.Keys;
    FewerKeys(s.calls, s'.calls);
    FewerKeys(s.tickets, s'.tickets);
  }

  lemma FetchStepBinds(cfg: P.Config, lim: Limits, s: State, e: Event, s': State)
    requires Inv(lim, s) && Next(cfg, lim, s, e, s') && (e.FindTicket? || e.ServeFetch? || e.Abandon?)
    ensures EpochsBind(s') && TicketsBind(lim, s') && ReadsBind(lim, s') && ServedBind(lim, s')
  {
    hide P.Next, P.Resolve, EndpointsAfter, Bounded;
    assert s'.origins == s.origins && s'.endpointOf == s.endpointOf && s'.registry == s.registry;
    assert EpochsBind(s') by { hide TicketsBind, ReadsBind, ServedBind; }
    assert TicketsBind(lim, s') by { hide EpochsBind, ReadsBind, ServedBind; }
    assert ReadsBind(lim, s') by { hide ServedBind; }
    assert ServedBind(lim, s') by { hide EpochsBind, TicketsBind; }
  }

  lemma StepKeepsInv(cfg: P.Config, lim: Limits, s: State, e: Event, s': State)
    requires Inv(lim, s) && Next(cfg, lim, s, e, s')
    ensures Inv(lim, s')
  {
    hide Next, EpochsBind, TicketsBind, ReadsBind, ServedBind, Bounded;
    match e
    case Host(_) => HostStepKeepsInv(cfg, lim, s, e, s');
    case BeginExecute(_, _, _, _) => BeginKeepsInv(cfg, lim, s, e, s');
    case BeginFetch(_, _, _, _, _) => BeginKeepsInv(cfg, lim, s, e, s');
    case FinishExecute(_, _, _, _) =>
      FinishExecuteBounded(cfg, lim, s, e, s');
      FinishExecuteBinds(cfg, lim, s, e, s');
    case _ =>
      FetchStepBounded(cfg, lim, s, e, s');
      FetchStepBinds(cfg, lim, s, e, s');
  }

  ghost predicate StepAt(cfg: P.Config, lim: Limits, ss: seq<State>, es: seq<Event>, i: nat)
    requires |ss| == |es| + 1 && i < |es|
  {
    Next(cfg, lim, ss[i], es[i], ss[i + 1])
  }

  ghost predicate IsRun(cfg: P.Config, lim: Limits, ss: seq<State>, es: seq<Event>) {
    && |ss| == |es| + 1
    && ss[0] == START
    && forall i :: 0 <= i < |es| ==> StepAt(cfg, lim, ss, es, i)
  }

  lemma StartInv(lim: Limits)
    ensures Inv(lim, START)
  {
  }

  lemma {:induction false} RunKeepsInv(cfg: P.Config, lim: Limits, ss: seq<State>, es: seq<Event>, i: nat)
    requires IsRun(cfg, lim, ss, es) && i < |ss|
    ensures Inv(lim, ss[i])
  {
    StartInv(lim);
    hide Inv, Next;
    if i > 0 {
      RunKeepsInv(cfg, lim, ss, es, i - 1);
      assert StepAt(cfg, lim, ss, es, i - 1);
      StepKeepsInv(cfg, lim, ss[i - 1], es[i - 1], ss[i]);
    }
  }

  /**
   In every run, every artifact ever served was read from the endpoint whose dispatch produced that
   screenshot, under the lease and epoch that minted its ticket. The ticket was looked up before it
   expired; the read follows the lookup. Live tickets and calls in flight stay within their limits.
   */
  lemma ServedFromMintingEndpoint(cfg: P.Config, lim: Limits, ss: seq<State>, es: seq<Event>, i: nat)
    requires IsRun(cfg, lim, ss, es) && i < |ss|
    ensures forall x :: x in ss[i].served ==> FromMint(lim, ss[i].origins, x)
    ensures |ss[i].tickets| <= lim.maxTickets && |ss[i].calls| <= lim.maxInflight
  {
    RunKeepsInv(cfg, lim, ss, es, i);
  }

  /** An origin, once recorded, is the record of one minting step and never changes. */
  lemma {:induction false} OriginIsMintingStep(
    cfg: P.Config, lim: Limits, ss: seq<State>, es: seq<Event>, i: nat, ticket: string) returns (k: nat)
    requires IsRun(cfg, lim, ss, es) && i < |ss| && ticket in ss[i].origins
    ensures k < i && es[k].FinishExecute? && es[k].minted == ticket && es[k].call in ss[k].calls
    ensures var o := ss[i].origins[ticket];
      && ss[k].calls[es[k].call] == Executing(o.lease, o.epoch, o.endpoint)
      && es[k].screenshot == Some(o.artifact) && es[k].now == o.mintedAt
  {
    assert i > 0;
    assert StepAt(cfg, lim, ss, es, i - 1);
    if ticket in ss[i - 1].origins {
      OriginStays(cfg, lim, ss[i - 1], es[i - 1], ss[i], ticket);
      hide Next;
      k := OriginIsMintingStep(cfg, lim, ss, es, i - 1, ticket);
    } else {
      OriginAppears(cfg, lim, ss[i - 1], es[i - 1], ss[i], ticket);
      hide Next;
      k := i - 1;
    }
  }

  lemma OriginStays(cfg: P.Config, lim: Limits, s: State, e: Event, s': State, ticket: string)
    requires Next(cfg, lim, s, e, s') && ticket in s.origins
    ensures ticket in s'.origins && s'.origins[ticket] == s.origins[ticket]
  {
    hide P.Next, P.Resolve, LiveTickets;
  }

  lemma OriginAppears(cfg: P.Config, lim: Limits, s: State, e: Event, s': State, ticket: string)
    requires Next(cfg, lim, s, e, s') && ticket !in s.origins && ticket in s'.origins
    ensures e.FinishExecute? && e.minted == ticket && e.call in s.calls
    ensures var o := s'.origins[ticket];
      && s.calls[e.call] == Executing(o.lease, o.epoch, o.endpoint)
      && e.screenshot == Some(o.artifact) && e.now == o.mintedAt
  {
    hide P.Next, P.Resolve, LiveTickets;
  }
}
