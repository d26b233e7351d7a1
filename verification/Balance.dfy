/** How evenly placement spreads its leases, and exactly when expiry spoils it. */
module Balance {
  import opened Common
  import opened Placement

  /** Loads differ by at most one. */
  ghost predicate Balanced(r: Registry) {
    forall w, v :: w in r.workers && v in r.workers ==> Load(r, w) <= Load(r, v) + 1
  }

  ghost predicate Uniform(r: Registry, capacity: nat) {
    forall w :: w in r.workers ==> r.workers[w].capacity == capacity
  }

  ghost predicate PlainAcquire(e: Event) {
    e.Acquire? && e.q == ANY_WORKER
  }

  /** One worker is behind all the others by one or two, and so is the only one that can be unbalanced. */
  ghost predicate Trails(r: Registry, w: string) {
    forall v :: v in r.workers && v != w ==> Load(r, w) + 1 <= Load(r, v) <= Load(r, w) + 2
  }

  /** An acquire leaves the loads even: expired leases aside they are so, or one worker trails alone. */
  ghost predicate EvenAfter(r: Registry, e: Event) {
    && e.Acquire?
    && var live := Live(r, e.now);
    Balanced(live) || exists w :: w in live.workers && Trails(live, w)
  }

  lemma PlacedIsLeast(live: Registry, on: string, v: string, capacity: nat)
    requires IsPlacement(live, ANY_WORKER, on) && Uniform(live, capacity) && v in live.workers
    requires Load(live, v) <= capacity
    ensures on in live.workers && Load(live, on) <= Load(live, v)
  {
    assert Eligible(live, ANY_WORKER, v) || Load(live, v) == capacity;
  }

  lemma LoadsAfterAcquire(cfg: Config, r: Registry, e: Event, r': Registry, capacity: nat, v: string)
    requires Inv(cfg, r) && Next(cfg, r, e, r') && PlainAcquire(e) && Uniform(r, capacity) && v in r.workers
    ensures var live := Live(r, e.now);
      Load(r', v) == Load(live, v) + (if v == e.on then 1 else 0) && Load(live, e.on) <= Load(live, v)
  {
    var live := Live(r, e.now);
    StepKeepsInv(cfg, r, Sweep(e.now), live);
    LoadAfterLease(live.leases, e.id, r'.leases[e.id], v);
    hide LeasesOn, IsPlacement;
    PlacedIsLeast(live, e.on, v, capacity);
  }

  /** Raising a least load by one balances the loads exactly when they were balanced or it trailed alone. */
  lemma RaisingLeast(live: Registry, r': Registry, on: string)
    requires r'.workers == live.workers && on in live.workers
    requires forall v :: v in live.workers ==>
      Load(r', v) == Load(live, v) + (if v == on then 1 else 0) && Load(live, on) <= Load(live, v)
    ensures Balanced(r') <==> Balanced(live) || exists w :: w in live.workers && Trails(live, w)
  {
    hide Load;
    assert forall w :: w in live.workers && Trails(live, w) ==> w == on;
    if Balanced(r') && !Balanced(live) {
      var x, y :| x in live.workers && y in live.workers && Load(live, x) > Load(live, y) + 1;
      assert y == on;
      forall v | v in live.workers && v != on ensures Load(live, on) + 1 <= Load(live, v) <= Load(live, on) + 2 {
        assert Load(r', x) <= Load(r', v) + 1 && Load(r', v) <= Load(r', on) + 1;
      }
    }
  }

  /**
   Over workers of one capacity, the loads after an unconstrained acquire are within one of each other
   exactly when they were so once expired leases had gone, or when one worker trailed alone.
   */
  lemma AcquireBalanceExactly(cfg: Config, r: Registry, e: Event, r': Registry, capacity: nat)
    requires Inv(cfg, r) && Next(cfg, r, e, r') && PlainAcquire(e) && Uniform(r, capacity)
    ensures Uniform(r', capacity)
    ensures Balanced(r') <==> EvenAfter(r, e)
  {
    PlacementIsEligible(Live(r, e.now), e.q, e.on);
    hide Load, IsPlacement, Inv, Balanced, Trails;
    forall v | v in r.workers
      ensures var live := Live(r, e.now);
        Load(r', v) == Load(live, v) + (if v == e.on then 1 else 0) && Load(live, e.on) <= Load(live, v)
    {
      LoadsAfterAcquire(cfg, r, e, r', capacity, v);
    }
    RaisingLeast(Live(r, e.now), r', e.on);
  }

  lemma NoLeasesBalanced(r: Registry)
    requires r.leases == map[]
    ensures Balanced(r)
  {
    forall w ensures Load(r, w) == 0 { assert LeasesOn(map[], w) == {}; }
  }

  /** Dropping what has expired does not unbalance the loads; with nothing expired it cannot. */
  ghost predicate ExpiryKeepsBalance(r: Registry, e: Event)
    requires e.Acquire?
  {
    Balanced(r) ==> Balanced(Live(r, e.now))
  }

  lemma {:induction false} StaysUniform(
    cfg: Config, ss: seq<Registry>, es: seq<Event>, from: nat, to: nat, capacity: nat)
    requires IsRun(cfg, ss, es) && from <= to < |ss| && Uniform(ss[from], capacity)
    requires forall i :: from <= i < to ==> PlainAcquire(es[i])
    ensures Uniform(ss[to], capacity)
    ensures to > from ==> (Balanced(ss[to]) <==> EvenAfter(ss[to - 1], es[to - 1]))
  {
    hide Inv, Next, Balanced, Uniform, EvenAfter;
    if from < to {
      StaysUniform(cfg, ss, es, from, to - 1, capacity);
      RunKeepsInv(cfg, ss, es, to - 1);
      assert StepAt(cfg, ss, es, to - 1);
      AcquireBalanceExactly(cfg, ss[to - 1], es[to - 1], ss[to], capacity);
    }
  }

  /** An acquire-only run is balanced throughout exactly when each of its acquires leaves the loads even. */
  lemma AcquireOnlyRunExactly(cfg: Config, ss: seq<Registry>, es: seq<Event>, from: nat, to: nat, capacity: nat)
    requires IsRun(cfg, ss, es) && from <= to < |ss| && ss[from].leases == map[] && Uniform(ss[from], capacity)
    requires forall i :: from <= i < to ==> PlainAcquire(es[i])
    ensures (forall i :: from <= i <= to ==> Balanced(ss[i])) <==>
      forall i :: from <= i < to ==> EvenAfter(ss[i], es[i])
  {
    hide Inv, Next, Balanced, Uniform, EvenAfter, PlainAcquire;
    NoLeasesBalanced(ss[from]);
    forall i | from <= i < to ensures Balanced(ss[i + 1]) <==> EvenAfter(ss[i], es[i]) {
      StaysUniform(cfg, ss, es, from, i + 1, capacity);
    }
    if forall i :: from <= i < to ==> EvenAfter(ss[i], es[i]) {
      forall i | from <= i <= to ensures Balanced(ss[i]) {
        if i > from { assert EvenAfter(ss[i - 1], es[i - 1]); }
      }
    } else {
      var i :| from <= i < to && !EvenAfter(ss[i], es[i]);
      assert !Balanced(ss[i + 1]);
    }
  }

  /** Acquire-only runs stay balanced to the end as long as expiry does not unbalance them. */
  lemma {:induction false} AcquireOnlyRunBalanced(
    cfg: Config, ss: seq<Registry>, es: seq<Event>, from: nat, to: nat, capacity: nat)
    requires IsRun(cfg, ss, es) && from <= to < |ss|
    requires ss[from].leases == map[] && Uniform(ss[from], capacity)
    requires forall i :: from <= i < to ==> PlainAcquire(es[i]) && ExpiryKeepsBalance(ss[i], es[i])
    ensures Balanced(ss[to]) && Uniform(ss[to], capacity)
  {
    hide Inv, Next, Balanced, Uniform;
    if from == to {
      NoLeasesBalanced(ss[to]);
    } else {
      AcquireOnlyRunBalanced(cfg, ss, es, from, to - 1, capacity);
      RunKeepsInv(cfg, ss, es, to - 1);
      assert StepAt(cfg, ss, es, to - 1);
      AcquireBalanceExactly(cfg, ss[to - 1], es[to - 1], ss[to], capacity);
    }
  }

  const THREE := Registration("", Macos, LocalUserDesktop, [], 0, 3)
  const PAIR: map<string, Registration> := map["a" := THREE.(epoch := "ea"), "b" := THREE.(epoch := "eb")]

  /** Two workers of capacity three; every lease on the first lasts, every lease on the second expires at 1. */
  ghost predicate Pair(r: Registry, onA: nat, onB: nat) {
    && r.workers == PAIR && r.clock == 0 && Load(r, "a") == onA && Load(r, "b") == onB && |r.leases| == onA + onB
    && (forall l :: l in r.leases ==> l in r.issued)
    && forall l :: l in r.leases ==>
         || (r.leases[l].worker == "a" && r.leases[l].expires == 2)
         || (r.leases[l].worker == "b" && r.leases[l].expires == 1)
  }

  lemma PairPlaces(live: Registry, on: string)
    requires live.workers == PAIR && Load(live, on) < 3
    requires (on == "a" && Load(live, "a") <= Load(live, "b")) || (on == "b" && Load(live, "b") < Load(live, "a"))
    ensures IsPlacement(live, ANY_WORKER, on)
  {
    assert StrLeq("a", "b") && StrLeq("a", "a") && StrLeq("b", "b");
  }

  lemma PairAcquires(cfg: Config, r: Registry, onA: nat, onB: nat, id: string) returns (e: Event, r': Registry)
    requires Pair(r, onA, onB) && onA < 3 && (onA == onB || onA == onB + 1) && id !in r.issued
    requires cfg.maxLeases > onA + onB && cfg.maxTtl >= 2
    ensures Next(cfg, r, e, r') && PlainAcquire(e) && r'.issued == r.issued + {id}
    ensures Pair(r', if onA == onB then onA + 1 else onA, if onA == onB then onB else onB + 1)
  {
    var on, ttl := if onA == onB then "a" else "b", if onA == onB then 2 else 1;
    var live := Live(r, 0);
    assert live.leases == r.leases;
    PairPlaces(live, on);
    var lease := Lease(on, r.workers[on].epoch, ttl);
    e := Acquire(0, 0, ANY_WORKER, ttl, id, on);
    r' := live.(leases := live.leases[id := lease], issued := r.issued + {id}, clock := 0);
    LoadAfterLease(r.leases, id, lease, "a");
    LoadAfterLease(r.leases, id, lease, "b");
    OneMoreKey(r.leases, id, lease);
    hide IsPlacement, LeasesOn;
  }

  ghost predicate Apart(r: Registry) {
    r.workers == PAIR && Load(r, "a") == 3 && Load(r, "b") == 1
  }

  lemma ApartUnbalanced(r: Registry)
    requires Apart(r)
    ensures !Balanced(r)
  {
    assert "a" in r.workers && "b" in r.workers;
  }

  lemma PairExpires(cfg: Config, r: Registry, id: string) returns (e: Event, r': Registry)
    requires Pair(r, 3, 2) && id !in r.issued && cfg.maxLeases > 5 && cfg.maxTtl >= 2
    ensures Next(cfg, r, e, r') && PlainAcquire(e) && Apart(r')
  {
    var live := Live(r, 1);
    assert LeasesOn(live.leases, "b") == {};
    assert LeasesOn(live.leases, "a") == LeasesOn(r.leases, "a");
    FewerKeys(r.leases, live.leases);
    PairPlaces(live, "b");
    var lease := Lease("b", "eb", 3);
    e := Acquire(1, 1, ANY_WORKER, 2, id, "b");
    r' := live.(leases := live.leases[id := lease], issued := r.issued + {id}, clock := 1);
    LoadAfterLease(live.leases, id, lease, "a");
    LoadAfterLease(live.leases, id, lease, "b");
    hide IsPlacement, LeasesOn;
  }

  lemma Extends(cfg: Config, ss: seq<Registry>, es: seq<Event>, e: Event, r: Registry)
    requires IsRun(cfg, ss, es) && Next(cfg, ss[|ss| - 1], e, r)
    ensures IsRun(cfg, ss + [r], es + [e])
  {
    hide Next;
    forall i | 0 <= i < |es| + 1 ensures StepAt(cfg, ss + [r], es + [e], i) {
      if i < |es| { assert StepAt(cfg, ss, es, i); }
    }
  }

  lemma PairRegisters(cfg: Config) returns (ss: seq<Registry>, es: seq<Event>)
    requires cfg.maxWorkers > 1 && cfg.maxLeases > 5
    ensures IsRun(cfg, ss, es) && |ss| == 3 && |es| == 2
    ensures Pair(ss[2], 0, 0) && ss[2].leases == map[] && ss[2].issued == {"a", "b", "ea", "eb"}
  {
    var a, b := THREE.(epoch := "ea"), THREE.(epoch := "eb");
    var s1 := Registry(map["a" := a], map[], {"a", "ea"}, 0);
    var s2 := Registry(PAIR, map[], {"a", "b", "ea", "eb"}, 0);
    assert Live(EMPTY, 0).leases == map[] && Live(s1, 0).leases == map[];
    assert Next(cfg, EMPTY, Register(0, "a", a), s1);
    assert s2.workers == s1.workers["b" := b] && s2.issued == s1.issued + {"b", "eb"};
    assert |s1.workers| == 1 by { OneMoreKey(map[], "a", a); }
    assert Next(cfg, s1, Register(0, "b", b), s2);
    ss, es := [EMPTY, s1, s2], [Register(0, "a", a), Register(0, "b", b)];
    assert StepAt(cfg, ss, es, 0) && StepAt(cfg, ss, es, 1);
    assert LeasesOn(map[], "a") == {} && LeasesOn(map[], "b") == {};
  }

  /** A run that registers the pair and then acquires under the first `k` names. */
  ghost predicate Filled(cfg: Config, ids: seq<string>, k: nat, ss: seq<Registry>, es: seq<Event>)
    requires k <= |ids|
  {
    && IsRun(cfg, ss, es) && |ss| == 3 + k && |es| == 2 + k
    && ss[2].leases == map[] && Uniform(ss[2], 3)
    && (forall i :: 2 <= i < |es| ==> PlainAcquire(es[i]))
    && Pair(ss[2 + k], (k + 1) / 2, k / 2)
    && (forall i :: k <= i < |ids| ==> ids[i] !in ss[2 + k].issued)
  }

  lemma FillsOne(cfg: Config, ids: seq<string>, k: nat, ss: seq<Registry>, es: seq<Event>)
    returns (ss': seq<Registry>, es': seq<Event>)
    requires k < 5 < |ids| && Filled(cfg, ids, k, ss, es) && cfg.maxLeases > 5 && cfg.maxTtl >= 2
    requires forall i, j :: 0 <= i < j < |ids| ==> ids[i] != ids[j]
    ensures Filled(cfg, ids, k + 1, ss', es')
  {
    hide Next, IsRun, Pair, Uniform, PlainAcquire;
    var onA, onB := (k + 1) / 2, k / 2;
    assert onA < 3 && (onA == onB || onA == onB + 1);
    var e, r := PairAcquires(cfg, ss[2 + k], onA, onB, ids[k]);
    Extends(cfg, ss, es, e, r);
    ss', es' := ss + [r], es + [e];
    assert (if onA == onB then onA + 1 else onA) == (k + 2) / 2;
    assert (if onA == onB then onB else onB + 1) == (k + 1) / 2;
  }

  lemma PairFills(cfg: Config, ids: seq<string>) returns (ss: seq<Registry>, es: seq<Event>)
    requires cfg.maxWorkers > 1 && cfg.maxLeases > 5 && cfg.maxTtl >= 2
    requires |ids| == 6 && forall i, j :: 0 <= i < j < 6 ==> ids[i] != ids[j]
    requires forall i :: 0 <= i < 6 ==> ids[i] !in {"a", "b", "ea", "eb"}
    ensures Filled(cfg, ids, 5, ss, es)
  {
    hide Next, IsRun;
    ss, es := PairRegisters(cfg);
    assert Filled(cfg, ids, 0, ss, es);
    hide Filled;
    for k := 0 to 5
      invariant Filled(cfg, ids, k, ss, es)
    {
      ss, es := FillsOne(cfg, ids, k, ss, es);
    }
  }

  /** The condition is needed: an acquire-only run over equal workers whose expiries leave loads three and one. */
  lemma ExpiryUnbalances(cfg: Config) returns (ss: seq<Registry>, es: seq<Event>)
    requires cfg.maxWorkers > 1 && cfg.maxLeases > 5 && cfg.maxTtl >= 2
    ensures IsRun(cfg, ss, es) && |es| > 2 && ss[2].leases == map[] && Uniform(ss[2], 3)
    ensures forall i :: 2 <= i < |es| ==> PlainAcquire(es[i])
    ensures Apart(ss[|ss| - 1]) && !Balanced(ss[|ss| - 1])
  {
    hide Next, Balanced, IsRun, Pair, Uniform, PlainAcquire, Apart;
    var ids := ["1", "2", "3", "4", "5", "6"];
    ss, es := PairFills(cfg, ids);
    var e, r := PairExpires(cfg, ss[7], ids[5]);
    Extends(cfg, ss, es, e, r);
    ss, es := ss + [r], es + [e];
    ApartUnbalanced(r);
  }
}
