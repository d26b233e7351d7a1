/**
 The worker registry as the host runs it: a mutable table of workers that stores a running
 `activeLeases` counter per worker, refined against the counter-free machine of `Placement`.
 The clock reading and the fresh random identifiers of each call are parameters.
 */
module HostRegistry {
  import opened Common
  import opened Placement

  datatype WorkerError = Invalid | Busy | StaleLease | InvalidEnvironment | Internal

  datatype WorkerEntry = WorkerEntry(registration: Registration, activeLeases: nat)

  ghost function Registrations(workers: map<string, WorkerEntry>): map<string, Registration> {
    map w | w in workers :: workers[w].registration
  }

  /** Every counter is the number of stored leases that name its worker. */
  ghost predicate Counted(workers: map<string, WorkerEntry>, leases: map<string, Lease>) {
    && (forall l :: l in leases ==> leases[l].worker in workers)
    && (forall w :: w in workers ==> workers[w].activeLeases == |LeasesOn(leases, w)|)
  }

  lemma DropKeepsCounts(
    workers: map<string, WorkerEntry>, leases: map<string, Lease>, id: string, workers': map<string, WorkerEntry>)
    requires Counted(workers, leases) && id in leases
    requires var w := leases[id].worker;
      workers' == workers[w := workers[w].(activeLeases := SaturatingSub(workers[w].activeLeases, 1))]
    ensures Counted(workers', leases - {id})
    ensures 0 < workers[leases[id].worker].activeLeases
  {
    hide LeasesOn;
    forall w | w in workers ensures |LeasesOn(leases, w)| ==
      |LeasesOn(leases - {id}, w)| + if w == leases[id].worker then 1 else 0
    {
      LeasesWithout(leases, id, w);
    }
  }

  lemma LeasesWithout(leases: map<string, Lease>, id: string, w: string)
    requires id in leases
    ensures |LeasesOn(leases, w)| == |LeasesOn(leases - {id}, w)| + if w == leases[id].worker then 1 else 0
  {
    if w == leases[id].worker {
      assert LeasesOn(leases, w) == LeasesOn(leases - {id}, w) + {id};
    } else {
      assert LeasesOn(leases, w) == LeasesOn(leases - {id}, w);
    }
  }

  lemma WorkerCounted(workers: map<string, WorkerEntry>, leases: map<string, Lease>, id: string, entry: WorkerEntry)
    requires Counted(workers, leases) && |LeasesOn(leases, id)| == 0 && entry.activeLeases == 0
    ensures Counted(workers[id := entry], leases)
  {
    hide LeasesOn;
  }

  lemma WorkerUncounted(workers: map<string, WorkerEntry>, leases: map<string, Lease>, id: string)
    requires Counted(workers, leases)
    ensures Counted(workers - {id}, map l | l in leases && leases[l].worker != id :: leases[l])
  {
    var left := map l | l in leases && leases[l].worker != id :: leases[l];
    forall w | w != id ensures LeasesOn(left, w) == LeasesOn(leases, w) {}
    hide LeasesOn;
  }

  lemma RegistrationsOf(workers: map<string, WorkerEntry>, id: string, entry: WorkerEntry)
    ensures |Registrations(workers)| == |workers|
    ensures Registrations(workers[id := entry]) == Registrations(workers)[id := entry.registration]
    ensures Registrations(workers - {id}) == Registrations(workers) - {id}
  {
    assert Registrations(workers).Keys == workers.Keys;
  }

  lemma RegistrationsHas(workers: map<string, WorkerEntry>, id: string)
    ensures id in Registrations(workers) <==> id in workers
    ensures id in workers ==> Registrations(workers)[id] == workers[id].registration
  {
  }

  lemma LiveKeeps(r: Registry, now: Time)
    ensures Live(r, now).workers == r.workers && Live(r, now).issued == r.issued && Live(r, now).clock == now
  {
  }

  class WorkerRegistry {
    const config: Config
    var workers: map<string, WorkerEntry>
    var leases: map<string, Lease>
    ghost var issued: set<string>
    ghost var clock: Time

    ghost function View(): Registry
      reads this
    {
      Registry(Registrations(workers), leases, issued, clock)
    }

    ghost predicate Valid()
      reads this
    {
      Counted(workers, leases) && Inv(config, View())
    }

    constructor (config: Config)
      ensures Valid() && View() == EMPTY && this.config == config
    {
      this.config := config;
      workers, leases, issued, clock := map[], map[], {}, 0;
      new;
      EmptyInv(config);
      assert View() == EMPTY;
    }

    /** Removes one lease and takes it off its worker's counter; the decrement never clips at zero. */
    method DropLease(id: string)
      requires Counted(workers, leases) && id in leases
      modifies this`workers, this`leases
      ensures Counted(workers, leases) && leases == old(leases) - {id}
      ensures Registrations(workers) == old(Registrations(workers))
    {
      var w := leases[id].worker;
      DropKeepsCounts(workers, leases, id,
        workers[w := workers[w].(activeLeases := SaturatingSub(workers[w].activeLeases, 1))]);
      workers := workers[w := workers[w].(activeLeases := SaturatingSub(workers[w].activeLeases, 1))];
      leases := leases - {id};
    }

    /** The purge loop, over leases collected beforehand and visited in no particular order. */
    method DropLeases(ids: set<string>)
      requires Counted(workers, leases) && ids <= leases.Keys
      modifies this`workers, this`leases
      ensures Counted(workers, leases) && leases == old(leases) - ids
      ensures Registrations(workers) == old(Registrations(workers))
    {
      hide Counted, Registrations;
      var pending := ids;
      while pending != {}
        invariant pending <= ids
        invariant leases == old(leases) - (ids - pending)
        invariant Counted(workers, leases) && Registrations(workers) == old(Registrations(workers))
      {
        var id :| id in pending;
        DropLease(id);
        pending := pending - {id};
      }
    }

    method PurgeExpired(now: Time)
      requires Valid() && clock <= now
      modifies this
      ensures Valid() && View() == Live(old(View()), now) && Next(config, old(View()), Sweep(now), View())
    {
      hide Inv, Counted, Registrations;
      DropLeases(set l | l in leases && leases[l].expires <= now);
      clock := now;
      assert leases == Live(old(View()), now).leases;
      StepKeepsInv(config, old(View()), Sweep(now), View());
    }

    method Register(
      now: Time, offered: Registration, environmentValid: bool, maxLeases: nat, freshId: string, freshEpoch: string)
      returns (r: Result<Registration, WorkerError>)
      requires Valid() && clock <= now
      requires freshId !in issued && freshEpoch !in issued && freshId != freshEpoch
      modifies this
      ensures Valid()
      ensures r.Ok? ==>
        && r.value == offered.(epoch := freshEpoch, capacity := maxLeases)
        && Next(config, old(View()), Event.Register(now, freshId, r.value), View())
      ensures r.Err? ==> View() == old(View()) || View() == Live(old(View()), now)
      ensures r.Ok? <==> 0 < maxLeases <= config.maxLeases && environmentValid && |old(workers)| < config.maxWorkers
      ensures r == Err(Invalid) <==> !(0 < maxLeases <= config.maxLeases)
      ensures r == Err(InvalidEnvironment) <==> 0 < maxLeases <= config.maxLeases && !environmentValid
      ensures r == Err(Busy) <==>
        0 < maxLeases <= config.maxLeases && environmentValid && |old(workers)| >= config.maxWorkers
    {
      hide Inv, LeasesOn, Counted, Registrations, Live;
      if maxLeases == 0 || maxLeases > config.maxLeases { return Err(Invalid); }
      if !environmentValid { return Err(InvalidEnvironment); }
      var descriptor := offered.(epoch := freshEpoch, capacity := maxLeases);
      RegistrationsOf(workers, freshId, WorkerEntry(descriptor, 0));
      PurgeExpired(now);
      RegistrationsOf(workers, freshId, WorkerEntry(descriptor, 0));
      LiveKeeps(old(View()), now);
      if |workers| >= config.maxWorkers { return Err(Busy); }
      FreshIsUnused(config, View(), freshId);
      WorkerCounted(workers, leases, freshId, WorkerEntry(descriptor, 0));
      workers := workers[freshId := WorkerEntry(descriptor, 0)];
      issued := issued + {freshId, freshEpoch};
      StepKeepsInv(config, old(View()), Event.Register(now, freshId, descriptor), View());
      r := Ok(descriptor);
    }

    method Unregister(id: string) returns (removed: bool)
      requires Valid()
      modifies this
      ensures Valid() && removed == (id in old(workers))
      ensures if removed then Next(config, old(View()), Event.Unregister(id), View()) else View() == old(View())
    {
      hide Inv, LeasesOn, Counted, Registrations;
      removed := id in workers;
      if removed {
        WorkerUncounted(workers, leases, id);
        RegistrationsOf(workers, id, workers[id]);
        RegistrationsHas(workers, id);
        workers := workers - {id};
        leases := map l | l in leases && leases[l].worker != id :: leases[l];
        StepKeepsInv(config, old(View()), Event.Unregister(id), View());
      }
    }

    /** Scans the workers in no particular order for the one that placement prefers. */
    method SelectWorker(q: Requirements) returns (best: Option<string>)
      requires Valid()
      ensures best.Some? ==> IsPlacement(View(), q, best.value)
      ensures best.None? ==> forall w :: !Eligible(View(), q, w)
    {
      ghost var view := View();
      var candidates := workers.Keys;
      best := None;
      while candidates != {}
        invariant candidates <= workers.Keys
        invariant best.Some? ==> Eligible(view, q, best.value)
        invariant forall v :: v in workers && v !in candidates && Eligible(view, q, v) ==>
          best.Some? && Before(view, best.value, v)
      {
        var w :| w in candidates;
        var entry := workers[w];
        BeforeTotal(view, w, w);
        if Matches(q, w, entry.registration) && entry.activeLeases < entry.registration.capacity {
          if best.None? {
            best := Some(w);
          } else {
            var held := workers[best.value];
            BeforeTotal(view, w, best.value);
            if entry.activeLeases < held.activeLeases ||
               (entry.activeLeases == held.activeLeases && StrLeq(w, best.value)) {
              forall v | Before(view, best.value, v) ensures Before(view, w, v) {
                BeforeTransitive(view, w, best.value, v);
              }
              best := Some(w);
            }
          }
        }
        candidates := candidates - {w};
      }
    }

    method Acquire(
      q: Requirements, ttl: nat, now: Time, placed: Time, freshId: string, wallClockFailure: Option<WorkerError>)
      returns (r: Result<Lease, WorkerError>)
      requires Valid() && clock <= now <= placed && freshId !in issued
      modifies this
      ensures Valid()
      ensures r.Ok? ==>
        && Next(config, old(View()), Event.Acquire(now, placed, q, ttl, freshId, r.value.worker), View())
        && freshId in leases && leases[freshId] == r.value
      ensures r.Ok? ==>
        var w, reg := r.value.worker, old(View()).workers;
        && w in reg && r.value.epoch == reg[w].epoch && r.value.expires == placed + ttl
        && (q.platform.Some? ==> reg[w].platform == q.platform.value)
        && (q.kind.Some? ==> reg[w].kind == q.kind.value)
        && (forall c :: c in q.capabilities ==> c in reg[w].capabilities)
        && (q.worker.Some? ==> w == q.worker.value)
      ensures r.Err? ==> View() == old(View()) || View() == Live(old(View()), now)
      ensures !(0 < ttl <= config.maxTtl) ==> r == Err(Invalid)
      ensures 0 < ttl <= config.maxTtl && wallClockFailure.None? ==>
        (r == Err(Busy) <==>
          var live := Live(old(View()), now);
          || |live.leases| >= config.maxLeases
          || forall w :: w in live.workers ==> Unsuitable(live, q, w))
      ensures r.Ok? <==>
        var live := Live(old(View()), now);
        && 0 < ttl <= config.maxTtl && wallClockFailure.None?
        && |live.leases| < config.maxLeases && exists w :: Eligible(live, q, w)
    {
      hide Inv, IsPlacement, Eligible, Counted, Registrations, LeasesOn, Unsuitable;
      NoneEligible(Live(View(), now), q);
      if ttl == 0 || ttl > config.maxTtl { return Err(Invalid); }
      PurgeExpired(now);
      ghost var live := View();
      if |leases| >= config.maxLeases { return Err(Busy); }
      var selected := SelectWorker(q);
      if selected.None? { return Err(Busy); }
      var on := selected.value;
      PlacementIsEligible(live, q, on);
      EligibleSuits(live, q, on);
      RegistrationsHas(workers, on);
      if wallClockFailure.Some? { return Err(wallClockFailure.value); }
      var lease := Lease(on, workers[on].registration.epoch, placed + ttl);
      FreshIsUnused(config, live, freshId);
      Grant(freshId, lease);
      issued, clock := issued + {freshId}, placed;
      assert Next(config, old(View()), Event.Acquire(now, placed, q, ttl, freshId, on), View());
      StepKeepsInv(config, old(View()), Event.Acquire(now, placed, q, ttl, freshId, on), View());
      r := Ok(lease);
    }

    /** Records a lease and adds it to its worker's counter. */
    method Grant(id: string, lease: Lease)
      requires Counted(workers, leases) && id !in leases && lease.worker in workers
      modifies this`workers, this`leases
      ensures Counted(workers, leases) && leases == old(leases)[id := lease]
      ensures Registrations(workers) == old(Registrations(workers))
    {
      forall w
        ensures |LeasesOn(leases[id := lease], w)| == |LeasesOn(leases, w)| + if lease.worker == w then 1 else 0
      {
        LoadAfterLease(leases, id, lease, w);
      }
      var entry := workers[lease.worker];
      workers := workers[lease.worker := entry.(activeLeases := entry.activeLeases + 1)];
      leases := leases[id := lease];
    }

    method Release(id: string) returns (removed: bool)
      requires Valid()
      modifies this
      ensures Valid() && removed == (id in old(leases))
      ensures if removed then Next(config, old(View()), Event.Release(id), View()) else View() == old(View())
    {
      removed := id in leases;
      if removed {
        DropLease(id);
        StepKeepsInv(config, old(View()), Event.Release(id), View());
      }
    }

    method ResolveLease(id: string, epoch: string, now: Time) returns (r: Result<(Lease, Endpoint), WorkerError>)
      requires Valid() && clock <= now
      modifies this
      ensures Valid() && Next(config, old(View()), Sweep(now), View())
      ensures r.Ok? <==> Resolve(old(View()), id, epoch, now).Some?
      ensures r.Ok? ==>
        && id in leases && leases[id] == r.value.0 && r.value.0.epoch == epoch && now < r.value.0.expires
        && Resolve(old(View()), id, epoch, now) == Some(r.value.1)
      ensures r.Err? ==> r.error == StaleLease
    {
      PurgeExpired(now);
      if id !in leases || leases[id].epoch != epoch { return Err(StaleLease); }
      var lease := leases[id];
      var entry := workers[lease.worker];
      if entry.registration.epoch == lease.epoch {
        r := Ok((lease, entry.registration.endpoint));
      } else {
        r := Err(StaleLease);
      }
    }
  }
}
