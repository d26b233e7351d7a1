/** The environment manager as it runs: each method is one critical section of a lifecycle call. */
module HostEnvironment {
  import opened Common
  import opened Environment

  datatype EnvironmentError = Invalid | Unsupported | Busy | StaleSnapshot | Provider

  datatype Capability = CanSnapshot | CanReset | CanClone

  lemma MatchesExactly(base: Option<string>, worker: string, epoch: string, x: Snapshot)
    ensures SnapshotMatches(base, worker, epoch, x) <==>
      && Opaque(x.snapshotRef, 128) && x.worker == worker && x.epoch == epoch && base == Some(x.baseImage)
      && x.createdAt.Some? && |x.baseImage| == 64
      && (forall i :: 0 <= i < 64 ==> var n := x.baseImage[i] as int; 48 <= n <= 57 || 97 <= n <= 102)
  {
    hide Opaque;
  }

  lemma ClonesExactly(base: Option<string>, from: Snapshot, x: Provisioned)
    ensures CloneMatches(base, from, x) <==>
      && Opaque(x.environmentRef, 128) && Opaque(x.generation, 128)
      && x.snapshotRef == from.snapshotRef && x.baseImage == from.baseImage && base == Some(x.baseImage)
  {
  }

  class EnvironmentManager {
    const config: Config
    const base: Option<string>
    const capabilities: set<Capability>
    var snapshots: map<string, Snapshot>
    var clones: map<string, Provisioned>
    var pendingSnapshots: nat
    var pendingClones: nat
    ghost var calls: map<CallId, Phase>

    ghost function View(): State
      reads this
    {
      State(snapshots, clones, pendingSnapshots, pendingClones, calls)
    }

    ghost predicate Valid()
      reads this
    {
      Inv(config, base, View())
    }

    constructor (config: Config, base: Option<string>, capabilities: set<Capability>)
      ensures Valid() && View() == EMPTY
      ensures this.config == config && this.base == base && this.capabilities == capabilities
    {
      this.config, this.base, this.capabilities := config, base, capabilities;
      snapshots, clones, pendingSnapshots, pendingClones, calls := map[], map[], 0, 0, map[];
      new;
      EmptyInv(config, base);
    }

    /** Everything before the provider is asked: a refusal reserves nothing. */
    method BeginSnapshot(worker: string, epoch: string, title: string, ghost c: CallId)
      returns (r: Result<(), EnvironmentError>)
      requires Valid() && c !in calls
      modifies this
      ensures Valid()
      ensures r.Ok? ==> Next(config, base, old(View()), Event.BeginSnapshot(c, worker, epoch), View())
      ensures r.Err? ==> View() == old(View())
      ensures r.Ok? <==>
        && CanSnapshot in capabilities
        && Opaque(worker, 128) && Opaque(epoch, 128) && Opaque(title, config.maxLabelBytes)
        && |old(snapshots)| + old(pendingSnapshots) < config.maxSnapshots
      ensures r.Err? ==>
        && (r.error == Unsupported <==> CanSnapshot !in capabilities)
        && (r.error == Invalid <==>
              && CanSnapshot in capabilities
              && !(Opaque(worker, 128) && Opaque(epoch, 128) && Opaque(title, config.maxLabelBytes)))
        && (r.error == Unsupported || r.error == Busy || r.error == Invalid)
    {
      hide Inv, Opaque;
      if CanSnapshot !in capabilities { return Err(Unsupported); }
      if !Opaque(worker, 128) || !Opaque(epoch, 128) || !Opaque(title, config.maxLabelBytes) { return Err(Invalid); }
      if |snapshots| + pendingSnapshots >= config.maxSnapshots { return Err(Busy); }
      pendingSnapshots := pendingSnapshots + 1;
      calls := calls[c := Snapshotting(worker, epoch)];
      StepKeepsInv(config, base, old(View()), Event.BeginSnapshot(c, worker, epoch), View());
      r := Ok(());
    }

    /** The provider's answer is settled: the reservation goes in every case, the snapshot stays only if it matches. */
    method EndSnapshot(worker: string, epoch: string, answer: Option<Snapshot>, ghost c: CallId)
      returns (r: Result<Snapshot, EnvironmentError>)
      requires Valid() && c in calls && calls[c] == Snapshotting(worker, epoch)
      modifies this
      ensures Valid() && Next(config, base, old(View()), Event.EndSnapshot(c, answer), View())
      ensures r.Ok? ==>
        && answer == Some(r.value) && SnapshotMatches(base, worker, epoch, r.value)
        && r.value.snapshotRef !in old(snapshots) && snapshots == old(snapshots)[r.value.snapshotRef := r.value]
      ensures r.Ok? <==>
        && answer.Some? && answer.value.worker == worker && answer.value.epoch == epoch
        && base == Some(answer.value.baseImage) && |answer.value.baseImage| == 64 && answer.value.createdAt.Some?
        && (forall i :: 0 <= i < 64 ==>
              var n := answer.value.baseImage[i] as int; 48 <= n <= 57 || 97 <= n <= 102)
        && Opaque(answer.value.snapshotRef, 128) && answer.value.snapshotRef !in old(snapshots)
      ensures r.Err? ==> snapshots == old(snapshots) && r.error == (if answer.None? then Provider else Invalid)
      ensures pendingSnapshots + 1 == old(pendingSnapshots)
    {
      if answer.Some? { MatchesExactly(base, worker, epoch, answer.value); }
      hide Inv, SnapshotMatches;
      ghost var e := Event.EndSnapshot(c, answer);
      ghost var s0 := View();
      pendingSnapshots := SaturatingSub(pendingSnapshots, 1);
      calls := calls - {c};
      if answer.None? {
        r := Err(Provider);
      } else if !SnapshotMatches(base, worker, epoch, answer.value) || answer.value.snapshotRef in snapshots {
        r := Err(Invalid);
      } else {
        snapshots := snapshots[answer.value.snapshotRef := answer.value];
        r := Ok(answer.value);
      }
      StepKeepsInv(config, base, s0, e, View());
    }

    method LookUp(snapshotRef: string, ghost c: CallId) returns (r: Result<Snapshot, EnvironmentError>)
      requires Valid() && c !in calls
      modifies this`calls
      ensures Valid()
      ensures r.Ok? ==>
        && Next(config, base, old(View()), Event.LookUp(c, snapshotRef), View())
        && calls == old(calls)[c := LookedUp(r.value)]
      ensures r.Err? ==> View() == old(View())
      ensures r.Ok? <==> CanClone in capabilities && Opaque(snapshotRef, 128) && snapshotRef in snapshots
      ensures r == Err(StaleSnapshot) <==>
        CanClone in capabilities && Opaque(snapshotRef, 128) && snapshotRef !in snapshots
      ensures r == Err(Unsupported) <==> CanClone !in capabilities
      ensures r == Err(Invalid) <==> CanClone in capabilities && !Opaque(snapshotRef, 128)
    {
      hide Inv, Opaque;
      if CanClone !in capabilities { return Err(Unsupported); }
      if !Opaque(snapshotRef, 128) { return Err(Invalid); }
      if snapshotRef !in snapshots { return Err(StaleSnapshot); }
      calls := calls[c := LookedUp(snapshots[snapshotRef])];
      StepKeepsInv(config, base, old(View()), Event.LookUp(c, snapshotRef), View());
      r := Ok(snapshots[snapshotRef]);
    }

    method ReserveClone(ghost c: CallId) returns (r: Result<(), EnvironmentError>)
      requires Valid() && c in calls && calls[c].LookedUp?
      modifies this
      ensures Valid() && Next(config, base, old(View()), Event.ReserveClone(c), View())
      ensures r.Ok? <==> |old(clones)| + old(pendingClones) < config.maxClones
      ensures r.Ok? <==> c in calls
      ensures r.Err? ==> r.error == Busy
    {
      hide Inv;
      ghost var s0 := View();
      if |clones| + pendingClones >= config.maxClones {
        calls := calls - {c};
        r := Err(Busy);
      } else {
        pendingClones := pendingClones + 1;
        calls := calls[c := Cloning(calls[c].snapshot)];
        r := Ok(());
      }
      StepKeepsInv(config, base, s0, Event.ReserveClone(c), View());
    }

    method EndClone(snapshot: Snapshot, machine: Option<Provisioned>, ghost c: CallId)
      returns (r: Result<Provisioned, EnvironmentError>)
      requires Valid() && c in calls && calls[c] == Cloning(snapshot)
      modifies this
      ensures Valid() && Next(config, base, old(View()), Event.EndClone(c, machine), View())
      ensures r.Ok? ==>
        && machine == Some(r.value) && CloneMatches(base, snapshot, r.value)
        && r.value.environmentRef !in old(clones) && clones == old(clones)[r.value.environmentRef := r.value]
      ensures r.Ok? <==>
        && machine.Some? && machine.value.environmentRef !in old(clones)
        && machine.value.snapshotRef == snapshot.snapshotRef && machine.value.baseImage == snapshot.baseImage
        && base == Some(machine.value.baseImage) && Opaque(machine.value.environmentRef, 128)
        && Opaque(machine.value.generation, 128)
      ensures r.Err? ==> clones == old(clones) && r.error == (if machine.None? then Provider else Invalid)
      ensures pendingClones + 1 == old(pendingClones)
    {
      if machine.Some? { ClonesExactly(base, snapshot, machine.value); }
      hide Inv, CloneMatches;
      ghost var e := Event.EndClone(c, machine);
      ghost var s0 := View();
      pendingClones := SaturatingSub(pendingClones, 1);
      calls := calls - {c};
      if machine.None? {
        r := Err(Provider);
      } else if !CloneMatches(base, snapshot, machine.value) || machine.value.environmentRef in clones {
        r := Err(Invalid);
      } else {
        clones := clones[machine.value.environmentRef := machine.value];
        r := Ok(machine.value);
      }
      StepKeepsInv(config, base, s0, e, View());
    }

    /** Before the provider is asked to reset: the snapshot as retained at this moment. */
    method BeginReset(environmentRef: string, snapshotRef: string) returns (r: Result<Snapshot, EnvironmentError>)
      requires Valid()
      ensures r.Ok? <==>
        CanReset in capabilities && Opaque(environmentRef, 128) && Opaque(snapshotRef, 128) && snapshotRef in snapshots
      ensures r.Ok? ==> r.value == snapshots[snapshotRef] && base == Some(r.value.baseImage)
      ensures r == Err(StaleSnapshot) <==>
        CanReset in capabilities && Opaque(environmentRef, 128) && Opaque(snapshotRef, 128) && snapshotRef !in snapshots
      ensures r == Err(Unsupported) <==> CanReset !in capabilities
      ensures r == Err(Invalid) <==>
        CanReset in capabilities && !(Opaque(environmentRef, 128) && Opaque(snapshotRef, 128))
    {
      hide Opaque;
      if CanReset !in capabilities { return Err(Unsupported); }
      if !Opaque(environmentRef, 128) || !Opaque(snapshotRef, 128) { return Err(Invalid); }
      if snapshotRef !in snapshots { return Err(StaleSnapshot); }
      r := Ok(snapshots[snapshotRef]);
    }

    /**
     After it answered: only a matching machine under the same reference is passed on. The snapshot is
     the one looked up before, whether or not it is still retained.
     */
    method FinishReset(environmentRef: string, from: Snapshot, machine: Option<Provisioned>)
      returns (r: Result<Provisioned, EnvironmentError>)
      ensures r.Ok? <==>
        machine.Some? && CloneMatches(base, from, machine.value) && machine.value.environmentRef == environmentRef
      ensures r.Ok? <==>
        && machine.Some? && machine.value.environmentRef == environmentRef
        && machine.value.snapshotRef == from.snapshotRef && machine.value.baseImage == from.baseImage
        && base == Some(machine.value.baseImage) && Opaque(machine.value.environmentRef, 128)
        && Opaque(machine.value.generation, 128)
      ensures r.Ok? ==> machine == Some(r.value)
      ensures r.Err? ==> r.error == if machine.None? then Provider else Invalid
    {
      if machine.None? { return Err(Provider); }
      if !CloneMatches(base, from, machine.value) { return Err(Invalid); }
      if machine.value.environmentRef != environmentRef { return Err(Invalid); }
      r := Ok(machine.value);
    }

    method ReleaseClone(environmentRef: string) returns (released: bool)
      requires Valid()
      modifies this`clones
      ensures Valid() && Next(config, base, old(View()), Event.ReleaseClone(environmentRef), View())
      ensures released == (environmentRef in old(clones))
    {
      hide Inv;
      released := environmentRef in clones;
      clones := clones - {environmentRef};
      StepKeepsInv(config, base, old(View()), Event.ReleaseClone(environmentRef), View());
    }

    method RemoveSnapshot(snapshotRef: string) returns (r: Result<bool, EnvironmentError>)
      requires Valid()
      modifies this`snapshots
      ensures Valid() && Next(config, base, old(View()), Event.RemoveSnapshot(snapshotRef), View())
      ensures r == if old(Named(View(), snapshotRef)) then Err(Busy) else Ok(snapshotRef in old(snapshots))
    {
      hide Inv;
      if exists k | k in clones :: clones[k].snapshotRef == snapshotRef { return Err(Busy); }
      assert !Named(View(), snapshotRef);
      var removed := snapshotRef in snapshots;
      snapshots := snapshots - {snapshotRef};
      StepKeepsInv(config, base, old(View()), Event.RemoveSnapshot(snapshotRef), View());
      r := Ok(removed);
    }
  }
}
