/**
 Bounded placement of finite leases on desktop workers, as a machine over values.
 A worker's load is not stored: it is the number of leases that name the worker.
 Identifiers are drawn from `issued`, so no identifier is ever handed out twice.
 */
module Placement {
  import opened Common

  type Time = nat
  type Endpoint = nat

  datatype Platform = Macos | Windows | Unsupported
  datatype Kind = LocalUserDesktop | RemoteDesktop | Isolated
  datatype Capability = NetworkPolicy | FilesystemPolicy | Snapshot | Reset | Clone

  datatype Registration = Registration(
    epoch: string, platform: Platform, kind: Kind, capabilities: seq<Capability>, endpoint: Endpoint, capacity: nat)

  datatype Lease = Lease(worker: string, epoch: string, expires: Time)

  datatype Config = Config(maxWorkers: nat, maxLeases: nat, maxTtl: nat)

  datatype Registry = Registry(
    workers: map<string, Registration>, leases: map<string, Lease>, issued: set<string>, clock: Time)

  datatype Requirements = Requirements(
    platform: Option<Platform>, kind: Option<Kind>, capabilities: seq<Capability>, worker: Option<string>)

  const ANY_WORKER := Requirements(None, None, [], None)

  predicate Matches(q: Requirements, id: string, w: Registration) {
    && (q.platform.None? || q.platform.value == w.platform)
    && (q.kind.None? || q.kind.value == w.kind)
    && (forall c :: c in q.capabilities ==> c in w.capabilities)
    && (q.worker.None? || q.worker.value == id)
  }

  ghost function LeasesOn(leases: map<string, Lease>, worker: string): set<string> {
    set l | l in leases && leases[l].worker == worker
  }

  ghost function Load(r: Registry, worker: string): nat {
    |LeasesOn(r.leases, worker)|
  }

  /** The registry once every lease that has expired by `now` is dropped. */
  ghost function Live(r: Registry, now: Time): Registry {
    r.(leases := map l | l in r.leases && now < r.leases[l].expires :: r.leases[l], clock := now)
  }

  ghost predicate Eligible(r: Registry, q: Requirements, id: string) {
    id in r.workers && Matches(q, id, r.workers[id]) && Load(r, id) < r.workers[id].capacity
  }

  /** What keeps a worker from being chosen, one by one. */
  ghost predicate Unsuitable(r: Registry, q: Requirements, id: string)
    requires id in r.workers
  {
    var w := r.workers[id];
    || Load(r, id) >= w.capacity
    || (q.platform.Some? && q.platform.value != w.platform)
    || (q.kind.Some? && q.kind.value != w.kind)
    || (exists c :: c in q.capabilities && c !in w.capabilities)
    || (q.worker.Some? && q.worker.value != id)
  }

  lemma EligibleExactly(r: Registry, q: Requirements, id: string)
    ensures Eligible(r, q, id) <==> id in r.workers && !Unsuitable(r, q, id)
  {
  }

  lemma NoneEligible(r: Registry, q: Requirements)
    ensures (forall w :: !Eligible(r, q, w)) <==> forall w :: w in r.workers ==> Unsuitable(r, q, w)
  {
    hide Eligible, Unsuitable;
    forall w ensures Eligible(r, q, w) <==> w in r.workers && !Unsuitable(r, q, w) { EligibleExactly(r, q, w); }
  }

  lemma EligibleSuits(r: Registry, q: Requirements, id: string)
    requires Eligible(r, q, id)
    ensures var w := r.workers[id];
      && (q.platform.Some? ==> w.platform == q.platform.value) && (q.kind.Some? ==> w.kind == q.kind.value)
      && (forall c :: c in q.capabilities ==> c in w.capabilities) && (q.worker.Some? ==> id == q.worker.value)
  {
  }

  /** Whoever asks for more has no more workers to choose from. */
  lemma AskingMoreNarrows(r: Registry, q: Requirements, more: Requirements, id: string)
    requires q.platform.Some? ==> more.platform == q.platform
    requires q.kind.Some? ==> more.kind == q.kind
    requires forall c :: c in q.capabilities ==> c in more.capabilities
    requires q.worker.Some? ==> more.worker == q.worker
    ensures Eligible(r, more, id) ==> Eligible(r, q, id)
  {
  }

  /** `v` may be placed after `w`: a smaller load wins, then the smaller identifier. */
  ghost predicate Before(r: Registry, w: string, v: string) {
    Load(r, w) < Load(r, v) || (Load(r, w) == Load(r, v) && StrLeq(w, v))
  }

  ghost predicate IsPlacement(r: Registry, q: Requirements, w: string) {
    Eligible(r, q, w) && forall v :: Eligible(r, q, v) ==> Before(r, w, v)
  }

  /** What a lease capability resolves to, with both epoch comparisons. */
  ghost function Resolve(r: Registry, lease: string, epoch: string, now: Time): Option<Endpoint> {
    var live := Live(r, now);
    if lease !in live.leases || live.leases[lease].epoch != epoch then None
    else
      var w := live.leases[lease].worker;
      if w in live.workers && live.workers[w].epoch == live.leases[lease].epoch
      then Some(live.workers[w].endpoint) else None
  }

  datatype Event =
    | Sweep(now: Time)
    | Register(now: Time, id: string, worker: Registration)
    | Unregister(id: string)
    | Acquire(now: Time, placed: Time, q: Requirements, ttl: nat, id: string, on: string)
    | Release(id: string)

  /** One atomic step under the registry lock. Calls that fail are `Sweep` or leave the state alone. */
  ghost predicate Next(cfg: Config, r: Registry, e: Event, r': Registry) {
    match e
    case Sweep(now) =>
      r.clock <= now && r' == Live(r, now)
    case Register(now, id, w) =>
      && r.clock <= now
      && |r.workers| < cfg.maxWorkers
      && 0 < w.capacity <= cfg.maxLeases
      && id !in r.issued && w.epoch !in r.issued && id != w.epoch
      && r' == Live(r, now).(workers := r.workers[id := w], issued := r.issued + {id, w.epoch})
    case Unregister(id) =>
      && id in r.workers
      && r' == r.(workers := r.workers - {id},
                  leases := map l | l in r.leases && r.leases[l].worker != id :: r.leases[l])
    case Acquire(now, placed, q, ttl, id, on) =>
      var live := Live(r, now);
      && r.clock <= now <= placed
      && 0 < ttl <= cfg.maxTtl
      && |live.leases| < cfg.maxLeases
      && id !in r.issued
      && IsPlacement(live, q, on)
      && r' == live.(leases := live.leases[id := Lease(on, r.workers[on].epoch, placed + ttl)],
                     issued := r.issued + {id}, clock := placed)
    case Release(id) =>
      id in r.leases && r' == r.(leases := r.leases - {id})
  }

  ghost predicate WithinBounds(cfg: Config, r: Registry) {
    |r.workers| <= cfg.maxWorkers && |r.leases| <= cfg.maxLeases
  }

  /** No worker carries more leases than its capacity. */
  ghost predicate WithinCapacity(cfg: Config, r: Registry) {
    forall w :: w in r.workers ==>
      0 < r.workers[w].capacity <= cfg.maxLeases && Load(r, w) <= r.workers[w].capacity
  }

  /** Every lease names a registered worker at the worker's current epoch. */
  ghost predicate Affine(r: Registry) {
    forall l :: l in r.leases ==>
      r.leases[l].worker in r.workers && r.workers[r.leases[l].worker].epoch == r.leases[l].epoch
  }

  ghost predicate FreshNames(r: Registry) {
    && (forall l :: l in r.leases ==> l in r.issued)
    && (forall w :: w in r.workers ==> w in r.issued)
    && (forall w :: w in r.workers ==> r.workers[w].epoch in r.issued)
  }

  ghost predicate Inv(cfg: Config, r: Registry) {
    WithinBounds(cfg, r) && WithinCapacity(cfg, r) && Affine(r) && FreshNames(r)
  }

  const EMPTY := Registry(map[], map[], {}, 0)

  /** Dropping leases never raises a load or breaks a bound. */
  lemma FewerLeases(cfg: Config, r: Registry, r': Registry)
    requires Inv(cfg, r)
    requires r'.workers.Keys <= r.workers.Keys && r'.issued == r.issued
    requires forall w :: w in r'.workers ==> r'.workers[w] == r.workers[w]
    requires r'.leases.Keys <= r.leases.Keys
    requires forall l :: l in r'.leases ==> r'.leases[l] == r.leases[l] && r.leases[l].worker in r'.workers
    ensures Inv(cfg, r')
    ensures forall w :: Load(r', w) <= Load(r, w)
  {
    SubsetSize(r'.workers.Keys, r.workers.Keys);
    SubsetSize(r'.leases.Keys, r.leases.Keys);
    forall w ensures Load(r', w) <= Load(r, w) {
      SubsetSize(LeasesOn(r'.leases, w), LeasesOn(r.leases, w));
    }
  }

  lemma LoadAfterLease(leases: map<string, Lease>, id: string, lease: Lease, w: string)
    requires id !in leases
    ensures |LeasesOn(leases[id := lease], w)| == |LeasesOn(leases, w)| + if lease.worker == w then 1 else 0
  {
    var after := LeasesOn(leases[id := lease], w);
    if lease.worker == w {
      assert after == LeasesOn(leases, w) + {id};
    } else {
      assert after == LeasesOn(leases, w);
    }
  }

  lemma UnknownWorkerUnleased(r: Registry, id: string)
    requires Affine(r) && id !in r.workers
    ensures Load(r, id) == 0
  {
    assert LeasesOn(r.leases, id) == {};
  }

  lemma RegisterKeepsInv(cfg: Config, live: Registry, id: string, w: Registration, r': Registry)
    requires Inv(cfg, live) && |live.workers| < cfg.maxWorkers
    requires 0 < w.capacity <= cfg.maxLeases && id !in live.issued && w.epoch !in live.issued
    requires r' == live.(workers := live.workers[id := w], issued := live.issued + {id, w.epoch})
    ensures Inv(cfg, r')
  {
    hide LeasesOn;
    UnknownWorkerUnleased(live, id);
    OneMoreKey(live.workers, id, w);
  }

  lemma AcquireKeepsInv(cfg: Config, live: Registry, id: string, lease: Lease, r': Registry)
    requires Inv(cfg, live) && |live.leases| < cfg.maxLeases && id !in live.issued
    requires lease.worker in live.workers && live.workers[lease.worker].epoch == lease.epoch
    requires Load(live, lease.worker) < live.workers[lease.worker].capacity
    requires r'.workers == live.workers && r'.leases == live.leases[id := lease] && r'.issued == live.issued + {id}
    ensures Inv(cfg, r')
  {
    assert WithinBounds(cfg, r') by { assert r'.leases.Keys == live.leases.Keys + {id}; }
    assert WithinCapacity(cfg, r') by {
      forall v | v in r'.workers ensures Load(r', v) <= r'.workers[v].capacity {
        LoadAfterLease(live.leases, id, lease, v);
      }
    }
  }

  /** Every step keeps the bounds, the epoch affinity and the capacity of each worker. */
  lemma StepKeepsInv(cfg: Config, r: Registry, e: Event, r': Registry)
    requires Inv(cfg, r) && Next(cfg, r, e, r')
    ensures Inv(cfg, r')
  {
    match e
    case Sweep(now) => FewerLeases(cfg, r, r');
    case Register(now, id, w) =>
      FewerLeases(cfg, r, Live(r, now));
      RegisterKeepsInv(cfg, Live(r, now), id, w, r');
    case Unregister(id) => FewerLeases(cfg, r, r');
    case Acquire(now, _, _, _, id, _) =>
      FewerLeases(cfg, r, Live(r, now));
      AcquireKeepsInv(cfg, Live(r, now), id, r'.leases[id], r');
    case Release(id) => FewerLeases(cfg, r, r');
  }

  /** A run: `ss[0]` is the empty registry and each event takes one state to the next. */
  ghost predicate IsRun(cfg: Config, ss: seq<Registry>, es: seq<Event>) {
    && |ss| == |es| + 1
    && ss[0] == EMPTY
    && forall i :: 0 <= i < |es| ==> StepAt(cfg, ss, es, i)
  }

  ghost predicate StepAt(cfg: Config, ss: seq<Registry>, es: seq<Event>, i: nat)
    requires |ss| == |es| + 1 && i < |es|
  {
    Next(cfg, ss[i], es[i], ss[i + 1])
  }

  lemma EmptyInv(cfg: Config)
    ensures Inv(cfg, EMPTY)
  {
  }

  /** No lease outlives the clock by more than the longest time the registry grants. */
  lemma {:induction false} LeasesFinite(cfg: Config, ss: seq<Registry>, es: seq<Event>, i: nat)
    requires IsRun(cfg, ss, es) && i < |ss|
    ensures forall l :: l in ss[i].leases ==> ss[i].leases[l].expires <= ss[i].clock + cfg.maxTtl
  {
    hide IsPlacement;
    if i > 0 {
      LeasesFinite(cfg, ss, es, i - 1);
      assert StepAt(cfg, ss, es, i - 1);
    }
  }

  lemma {:induction false} RunKeepsInv(cfg: Config, ss: seq<Registry>, es: seq<Event>, i: nat)
    requires IsRun(cfg, ss, es) && i < |ss|
    ensures Inv(cfg, ss[i])
  {
    EmptyInv(cfg);
    hide Inv, Next;
    if i > 0 {
      RunKeepsInv(cfg, ss, es, i - 1);
      assert StepAt(cfg, ss, es, i - 1);
      StepKeepsInv(cfg, ss[i - 1], es[i - 1], ss[i]);
    }
  }

  /** The events that revoke a lease before it expires. */
  predicate Revokes(e: Event, lease: string, worker: string) {
    e == Release(lease) || e == Unregister(worker)
  }

  ghost predicate Revoked(es: seq<Event>, lo: nat, hi: nat, lease: string, worker: string)
    requires hi <= |es|
  {
    exists m :: lo <= m < hi && Revokes(es[m], lease, worker)
  }

  /** The lease issued by `e` is stored unchanged, next to the registration `w` it was placed on. */
  ghost predicate Held(r: Registry, e: Event, w: Registration)
    requires e.Acquire?
  {
    && e.id in r.leases && r.leases[e.id] == Lease(e.on, w.epoch, e.placed + e.ttl)
    && e.on in r.workers && r.workers[e.on] == w
  }

  /** An issued lease is gone once revoked, and until then is held or has expired. */
  ghost predicate Tracked(r: Registry, e: Event, w: Registration, revoked: bool)
    requires e.Acquire?
  {
    && e.id in r.issued && e.on in r.issued
    && (if revoked then e.id !in r.leases
        else Held(r, e, w) || (e.id !in r.leases && e.placed + e.ttl <= r.clock))
  }

  lemma StepTracksLease(cfg: Config, r: Registry, step: Event, r': Registry, e: Event, w: Registration, revoked: bool)
    requires e.Acquire? && Next(cfg, r, step, r') && Tracked(r, e, w, revoked)
    ensures Tracked(r', e, w, revoked || Revokes(step, e.id, e.on))
  {
    match step
    case Sweep(now) =>
    case Register(now, id, v) =>
    case Unregister(id) =>
    case Acquire(_, _, _, _, _, _) =>
    case Release(id) =>
  }

  lemma AcquireTracksLease(cfg: Config, r: Registry, e: Event, r': Registry)
    requires e.Acquire? && Inv(cfg, r) && Next(cfg, r, e, r')
    ensures e.on in r.workers && Tracked(r', e, r.workers[e.on], false)
  {
  }

  lemma {:induction false} RunTracksLease(cfg: Config, ss: seq<Registry>, es: seq<Event>, k: nat, j: nat)
    requires IsRun(cfg, ss, es) && k < j < |ss| && es[k].Acquire?
    ensures es[k].on in ss[k].workers
    ensures Tracked(ss[j], es[k], ss[k].workers[es[k].on], Revoked(es, k + 1, j, es[k].id, es[k].on))
  {
    hide Inv, Next, Tracked;
    var e := es[k];
    RunKeepsInv(cfg, ss, es, k);
    assert StepAt(cfg, ss, es, k);
    AcquireTracksLease(cfg, ss[k], e, ss[k + 1]);
    if j > k + 1 {
      RunTracksLease(cfg, ss, es, k, j - 1);
      var before := Revoked(es, k + 1, j - 1, e.id, e.on);
      assert StepAt(cfg, ss, es, j - 1);
      StepTracksLease(cfg, ss[j - 1], es[j - 1], ss[j], e, ss[k].workers[e.on], before);
      assert Revoked(es, k + 1, j, e.id, e.on) == (before || Revokes(es[j - 1], e.id, e.on));
    }
  }

  /**
   Whatever steps fall between, a lease issued at event `k` resolves at a later time `now` exactly
   when its own epoch is presented, it has not expired, and neither it nor its worker was revoked;
   it then resolves to the endpoint it was placed on. In particular staleness is permanent.
   */
  lemma LeaseResolvesExactly(
    cfg: Config, ss: seq<Registry>, es: seq<Event>, k: nat, j: nat, epoch: string, now: Time)
    requires IsRun(cfg, ss, es) && k < j < |ss| && es[k].Acquire? && ss[j].clock <= now
    ensures es[k].on in ss[k].workers
    ensures Resolve(ss[j], es[k].id, epoch, now) ==
            if && epoch == ss[k].workers[es[k].on].epoch
               && now < es[k].placed + es[k].ttl
               && !Revoked(es, k + 1, j, es[k].id, es[k].on)
            then Some(ss[k].workers[es[k].on].endpoint) else None
  {
    RunTracksLease(cfg, ss, es, k, j);
  }

  /** The second epoch comparison in `resolve` never rejects on its own. */
  lemma WorkerEpochFilterIsIdle(cfg: Config, ss: seq<Registry>, es: seq<Event>, j: nat, lease: string, now: Time)
    requires IsRun(cfg, ss, es) && j < |ss| && lease in Live(ss[j], now).leases
    ensures Resolve(ss[j], lease, ss[j].leases[lease].epoch, now).Some?
  {
    RunKeepsInv(cfg, ss, es, j);
  }

  lemma BeforeTotal(r: Registry, w: string, v: string)
    ensures Before(r, w, v) || Before(r, v, w)
    ensures Before(r, w, v) && Before(r, v, w) ==> w == v
  {
    StrLeqTotal(w, v);
    if Before(r, w, v) && Before(r, v, w) { StrLeqAntisymmetric(w, v); }
  }

  lemma BeforeTransitive(r: Registry, u: string, w: string, v: string)
    requires Before(r, u, w) && Before(r, w, v)
    ensures Before(r, u, v)
  {
    if Load(r, u) == Load(r, w) == Load(r, v) { StrLeqTransitive(u, w, v); }
  }

  /** The choice does not depend on the order in which workers are visited. */
  lemma PlacementUnique(r: Registry, q: Requirements, w: string, v: string)
    requires IsPlacement(r, q, w) && IsPlacement(r, q, v)
    ensures w == v
  {
    BeforeTotal(r, w, v);
  }

  lemma PlacementIsEligible(r: Registry, q: Requirements, w: string)
    requires IsPlacement(r, q, w)
    ensures w in r.workers && Eligible(r, q, w)
  {
  }

  lemma FreshIsUnused(cfg: Config, r: Registry, id: string)
    requires Inv(cfg, r) && id !in r.issued
    ensures id !in r.leases && id !in r.workers && Load(r, id) == 0
  {
    UnknownWorkerUnleased(r, id);
  }
}
