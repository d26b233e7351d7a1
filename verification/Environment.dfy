/**
 The snapshot and clone manager with every lifecycle call split at its awaits: capacity is reserved
 before the provider call and settled after it, the provider may answer anything, and a clone looks
 its snapshot up in one critical section and reserves its slot in the next.
 */
module Environment {
  import opened Common

  type CallId = nat

  datatype Config = Config(maxSnapshots: nat, maxClones: nat, maxLabelBytes: nat)

  datatype Snapshot = Snapshot(
    snapshotRef: string, worker: string, epoch: string, baseImage: string, createdAt: Option<nat>)

  datatype Provisioned = Provisioned(
    environmentRef: string, generation: string, snapshotRef: string, baseImage: string)

  datatype Phase =
    | Snapshotting(worker: string, epoch: string)
    | LookedUp(snapshot: Snapshot)
    | Cloning(snapshot: Snapshot)

  /** `calls` is history: the calls in flight, which the manager itself only counts. */
  datatype State = State(
    snapshots: map<string, Snapshot>, clones: map<string, Provisioned>,
    pendingSnapshots: nat, pendingClones: nat, calls: map<CallId, Phase>)

  /** The Unicode White_Space property. */
  predicate Space(c: char) {
    var u := c as int;
    || 0x9 <= u <= 0xD || u == 0x20 || u == 0x85 || u == 0xA0 || u == 0x1680 || 0x2000 <= u <= 0x200A
    || u == 0x2028 || u == 0x2029 || u == 0x202F || u == 0x205F || u == 0x3000
  }

  /** Bytes of the UTF-8 form. */
  function ByteLength(value: string): nat {
    if value == "" then 0
    else
      var u := value[0] as int;
      (if u < 0x80 then 1 else if u < 0x800 then 2 else if u < 0x1_0000 then 3 else 4) + ByteLength(value[1..])
  }

  /** Nonempty, bounded and already trimmed. */
  predicate Opaque(value: string, maxBytes: nat) {
    value != "" && ByteLength(value) <= maxBytes && !Space(value[0]) && !Space(value[|value| - 1])
  }

  /** Leading and trailing white space removed, as `str::trim` does. */
  function Trimmed(value: string): string {
    if value != "" && Space(value[0]) then Trimmed(value[1..])
    else if value != "" && Space(value[|value| - 1]) then Trimmed(value[..|value| - 1])
    else value
  }

  lemma {:induction false} TrimmedShorter(value: string)
    ensures |Trimmed(value)| <= |value|
  {
    if value != "" && Space(value[0]) {
      TrimmedShorter(value[1..]);
    } else if value != "" && Space(value[|value| - 1]) {
      TrimmedShorter(value[..|value| - 1]);
    }
  }

  /** The UTF-8 form of a code point. */
  function Encoded(u: nat): seq<nat> {
    if u < 0x80 then [u]
    else if u < 0x800 then [0xC0 + u / 0x40, 0x80 + u % 0x40]
    else if u < 0x1_0000 then [0xE0 + u / 0x1000, 0x80 + u / 0x40 % 0x40, 0x80 + u % 0x40]
    else [0xF0 + u / 0x4_0000, 0x80 + u / 0x1000 % 0x40, 0x80 + u / 0x40 % 0x40, 0x80 + u % 0x40]
  }

  function Utf8(value: string): seq<nat> {
    if value == "" then [] else Encoded(value[0] as int) + Utf8(value[1..])
  }

  lemma {:induction false} ByteLengthIsEncoded(value: string)
    ensures ByteLength(value) == |Utf8(value)|
  {
    if value != "" { ByteLengthIsEncoded(value[1..]); }
  }

  /** The leading byte tells the length, and a code point takes no more bytes than it needs. */
  lemma EncodedExactly(u: nat)
    requires u < 0x11_0000
    ensures forall i :: 0 <= i < |Encoded(u)| ==> 0 <= Encoded(u)[i] < 0x100 && (i > 0 ==> 0x80 <= Encoded(u)[i] < 0xC0)
    ensures var lead := Encoded(u)[0];
      |Encoded(u)| == if lead < 0x80 then 1 else if lead < 0xE0 then 2 else if lead < 0xF0 then 3 else 4
    ensures |Encoded(u)| > 1 ==> u >= [0x80, 0x800, 0x1_0000][|Encoded(u)| - 2]
  {
  }

  /** A name is usable exactly when it is nonempty, already trimmed, and its UTF-8 form fits. */
  lemma OpaqueExactly(value: string, maxBytes: nat)
    ensures Opaque(value, maxBytes) <==> value != "" && Trimmed(value) == value && |Utf8(value)| <= maxBytes
  {
    ByteLengthIsEncoded(value);
    if value != "" {
      TrimmedShorter(value[1..]);
      TrimmedShorter(value[..|value| - 1]);
    }
  }

  lemma SpaceListed(c: char)
    ensures Space(c) <==> c as int in {
      9, 10, 11, 12, 13, 32, 133, 160, 5760, 8192, 8193, 8194, 8195, 8196, 8197, 8198, 8199, 8200, 8201, 8202, 8232,
      8233, 8239, 8287, 12288}
  {
  }

  predicate IsSha256(value: string) {
    |value| == 64 && forall i :: 0 <= i < 64 ==> '0' <= value[i] <= '9' || 'a' <= value[i] <= 'f'
  }

  predicate SnapshotMatches(base: Option<string>, worker: string, epoch: string, x: Snapshot) {
    && Opaque(x.snapshotRef, 128)
    && x.worker == worker && x.epoch == epoch
    && base == Some(x.baseImage) && IsSha256(x.baseImage) && x.createdAt.Some?
  }

  predicate CloneMatches(base: Option<string>, from: Snapshot, x: Provisioned) {
    && Opaque(x.environmentRef, 128) && Opaque(x.generation, 128)
    && x.snapshotRef == from.snapshotRef && x.baseImage == from.baseImage && base == Some(x.baseImage)
  }

  datatype Event =
    | BeginSnapshot(c: CallId, worker: string, epoch: string)
    | EndSnapshot(c: CallId, answer: Option<Snapshot>)
    | LookUp(c: CallId, snapshotRef: string)
    | ReserveClone(c: CallId)
    | EndClone(c: CallId, machine: Option<Provisioned>)
    | ReleaseClone(environmentRef: string)
    | RemoveSnapshot(snapshotRef: string)

  predicate Retainable(s: State, base: Option<string>, p: Phase, answer: Option<Snapshot>)
    requires p.Snapshotting?
  {
    answer.Some? && SnapshotMatches(base, p.worker, p.epoch, answer.value) && answer.value.snapshotRef !in s.snapshots
  }

  predicate Clonable(s: State, base: Option<string>, p: Phase, answer: Option<Provisioned>)
    requires p.Cloning?
  {
    answer.Some? && CloneMatches(base, p.snapshot, answer.value) && answer.value.environmentRef !in s.clones
  }

  ghost predicate Named(s: State, snapshotRef: string) {
    exists k :: k in s.clones && s.clones[k].snapshotRef == snapshotRef
  }

  ghost predicate Next(cfg: Config, base: Option<string>, s: State, e: Event, s': State) {
    match e
    case BeginSnapshot(c, worker, epoch) =>
      && c !in s.calls && |s.snapshots| + s.pendingSnapshots < cfg.maxSnapshots
      && s' == s.(pendingSnapshots := s.pendingSnapshots + 1, calls := s.calls[c := Snapshotting(worker, epoch)])
    case EndSnapshot(c, answer) =>
      && c in s.calls && s.calls[c].Snapshotting?
      && s' == s.(pendingSnapshots := SaturatingSub(s.pendingSnapshots, 1), calls := s.calls - {c},
                  snapshots := if Retainable(s, base, s.calls[c], answer)
                               then s.snapshots[answer.value.snapshotRef := answer.value] else s.snapshots)
    case LookUp(c, r) =>
      && c !in s.calls && r in s.snapshots
      && s' == s.(calls := s.calls[c := LookedUp(s.snapshots[r])])
    case ReserveClone(c) =>
      && c in s.calls && s.calls[c].LookedUp?
      && s' == if |s.clones| + s.pendingClones >= cfg.maxClones then s.(calls := s.calls - {c})
               else s.(pendingClones := s.pendingClones + 1, calls := s.calls[c := Cloning(s.calls[c].snapshot)])
    case EndClone(c, machine) =>
      && c in s.calls && s.calls[c].Cloning?
      && s' == s.(pendingClones := SaturatingSub(s.pendingClones, 1), calls := s.calls - {c},
                  clones := if Clonable(s, base, s.calls[c], machine)
                            then s.clones[machine.value.environmentRef := machine.value] else s.clones)
    case ReleaseClone(r) =>
      s' == s.(clones := s.clones - {r})
    case RemoveSnapshot(r) =>
      s' == if Named(s, r) then s else s.(snapshots := s.snapshots - {r})
  }

  ghost function SnapshotCalls(calls: map<CallId, Phase>): set<CallId> {
    set c | c in calls && calls[c].Snapshotting?
  }

  ghost function CloneCalls(calls: map<CallId, Phase>): set<CallId> {
    set c | c in calls && calls[c].Cloning?
  }

  /** The counters are exactly the calls in flight, and reservations keep both limits. */
  ghost predicate Counted(cfg: Config, s: State) {
    && s.pendingSnapshots == |SnapshotCalls(s.calls)| && s.pendingClones == |CloneCalls(s.calls)|
    && |s.snapshots| + s.pendingSnapshots <= cfg.maxSnapshots
    && |s.clones| + s.pendingClones <= cfg.maxClones
  }

  /** Every retained snapshot passed validation against the worker, epoch and image it names. */
  ghost predicate SnapshotsImaged(base: Option<string>, s: State) {
    forall r :: r in s.snapshots ==>
      && s.snapshots[r].snapshotRef == r
      && SnapshotMatches(base, s.snapshots[r].worker, s.snapshots[r].epoch, s.snapshots[r])
  }

  ghost predicate ClonesImaged(base: Option<string>, s: State) {
    forall k :: k in s.clones ==> s.clones[k].environmentRef == k && base == Some(s.clones[k].baseImage)
  }

  ghost predicate CallsImaged(base: Option<string>, s: State) {
    forall c :: c in s.calls && !s.calls[c].Snapshotting? ==> base == Some(s.calls[c].snapshot.baseImage)
  }

  ghost predicate Imaged(base: Option<string>, s: State) {
    SnapshotsImaged(base, s) && ClonesImaged(base, s) && CallsImaged(base, s)
  }

  ghost predicate Inv(cfg: Config, base: Option<string>, s: State) {
    Counted(cfg, s) && Imaged(base, s)
  }

  const EMPTY := State(map[], map[], 0, 0, map[])

  lemma SnapshotEnters(calls: map<CallId, Phase>, c: CallId, p: Phase)
    requires c !in calls
    ensures |SnapshotCalls(calls[c := p])| == |SnapshotCalls(calls)| + (if p.Snapshotting? then 1 else 0)
  {
    if p.Snapshotting? {
      assert SnapshotCalls(calls[c := p]) == SnapshotCalls(calls) + {c};
    } else {
      assert SnapshotCalls(calls[c := p]) == SnapshotCalls(calls);
    }
  }

  lemma CloneEnters(calls: map<CallId, Phase>, c: CallId, p: Phase)
    requires c !in calls
    ensures |CloneCalls(calls[c := p])| == |CloneCalls(calls)| + (if p.Cloning? then 1 else 0)
  {
    if p.Cloning? {
      assert CloneCalls(calls[c := p]) == CloneCalls(calls) + {c};
    } else {
      assert CloneCalls(calls[c := p]) == CloneCalls(calls);
    }
  }

  lemma CallEnters(calls: map<CallId, Phase>, c: CallId, p: Phase)
    requires c !in calls
    ensures |SnapshotCalls(calls[c := p])| == |SnapshotCalls(calls)| + (if p.Snapshotting? then 1 else 0)
    ensures |CloneCalls(calls[c := p])| == |CloneCalls(calls)| + (if p.Cloning? then 1 else 0)
  {
    SnapshotEnters(calls, c, p);
    CloneEnters(calls, c, p);
  }

  lemma CallLeaves(calls: map<CallId, Phase>, c: CallId)
    requires c in calls
    ensures |SnapshotCalls(calls - {c})| == |SnapshotCalls(calls)| - (if calls[c].Snapshotting? then 1 else 0)
    ensures |CloneCalls(calls - {c})| == |CloneCalls(calls)| - (if calls[c].Cloning? then 1 else 0)
  {
    assert (calls - {c})[c := calls[c]] == calls;
    CallEnters(calls - {c}, c, calls[c]);
  }

  lemma SnapshotStepCounted(cfg: Config, base: Option<string>, s: State, e: Event, s': State)
    requires Counted(cfg, s) && Next(cfg, base, s, e, s') && (e.BeginSnapshot? || e.EndSnapshot?)
    ensures Counted(cfg, s')
    ensures e.EndSnapshot? ==> s.pendingSnapshots > 0
  {
    hide Opaque, IsSha256, SnapshotMatches, SnapshotCalls, CloneCalls;
    if e.BeginSnapshot? {
      CallEnters(s.calls, e.c, Snapshotting(e.worker, e.epoch));
    } else {
      CallLeaves(s.calls, e.c);
      if s'.snapshots != s.snapshots { OneMoreKey(s.snapshots, e.answer.value.snapshotRef, e.answer.value); }
    }
  }

  lemma CloneStepCounted(cfg: Config, base: Option<string>, s: State, e: Event, s': State)
    requires Counted(cfg, s) && Next(cfg, base, s, e, s') && (e.LookUp? || e.ReserveClone? || e.EndClone?)
    ensures Counted(cfg, s')
    ensures e.EndClone? ==> s.pendingClones > 0
  {
    hide Opaque, CloneMatches, SnapshotCalls, CloneCalls;
    if e.LookUp? {
      CallEnters(s.calls, e.c, LookedUp(s.snapshots[e.snapshotRef]));
    } else if e.ReserveClone? {
      CallLeaves(s.calls, e.c);
      CallEnters(s.calls - {e.c}, e.c, Cloning(s.calls[e.c].snapshot));
      assert (s.calls - {e.c})[e.c := Cloning(s.calls[e.c].snapshot)] == s.calls[e.c := Cloning(s.calls[e.c].snapshot)];
    } else {
      CallLeaves(s.calls, e.c);
      if s'.clones != s.clones { OneMoreKey(s.clones, e.machine.value.environmentRef, e.machine.value); }
    }
  }

  lemma RemovalCounted(cfg: Config, base: Option<string>, s: State, e: Event, s': State)
    requires Counted(cfg, s) && Next(cfg, base, s, e, s') && (e.ReleaseClone? || e.RemoveSnapshot?)
    ensures Counted(cfg, s')
  {
    hide Named, SnapshotCalls, CloneCalls;
    if e.ReleaseClone? {
      FewerKeys(s.clones, s'.clones);
    } else {
      FewerKeys(s.snapshots, s'.snapshots);
    }
  }

  lemma SnapshotIsOldOrMatches(cfg: Config, base: Option<string>, s: State, e: Event, s': State, r: string)
    requires Next(cfg, base, s, e, s') && r in s'.snapshots
    ensures
      || (r in s.snapshots && s'.snapshots[r] == s.snapshots[r])
      || (s'.snapshots[r].snapshotRef == r &&
          SnapshotMatches(base, s'.snapshots[r].worker, s'.snapshots[r].epoch, s'.snapshots[r]))
  {
    if e.EndSnapshot? {
      hide Named, Clonable, Opaque, IsSha256;
    } else {
      hide Named, Clonable, Retainable, SnapshotMatches;
      assert r in s.snapshots && s'.snapshots[r] == s.snapshots[r];
    }
  }

  lemma StepSnapshotsImaged(cfg: Config, base: Option<string>, s: State, e: Event, s': State)
    requires SnapshotsImaged(base, s) && Next(cfg, base, s, e, s')
    ensures SnapshotsImaged(base, s')
  {
    hide Next, SnapshotMatches;
    forall r | r in s'.snapshots
      ensures s'.snapshots[r].snapshotRef == r
      ensures SnapshotMatches(base, s'.snapshots[r].worker, s'.snapshots[r].epoch, s'.snapshots[r])
    {
      SnapshotIsOldOrMatches(cfg, base, s, e, s', r);
    }
  }

  lemma CloneIsOldOrMatches(cfg: Config, base: Option<string>, s: State, e: Event, s': State, k: string)
    requires Next(cfg, base, s, e, s') && k in s'.clones
    ensures
      || (k in s.clones && s'.clones[k] == s.clones[k])
      || (s'.clones[k].environmentRef == k && base == Some(s'.clones[k].baseImage))
  {
    hide Opaque, Named, Retainable;
  }

  lemma StepClonesImaged(cfg: Config, base: Option<string>, s: State, e: Event, s': State)
    requires ClonesImaged(base, s) && Next(cfg, base, s, e, s')
    ensures ClonesImaged(base, s')
  {
    hide Next;
    forall k | k in s'.clones ensures s'.clones[k].environmentRef == k && base == Some(s'.clones[k].baseImage) {
      CloneIsOldOrMatches(cfg, base, s, e, s', k);
    }
  }

  lemma StepCallsImaged(cfg: Config, base: Option<string>, s: State, e: Event, s': State)
    requires SnapshotsImaged(base, s) && CallsImaged(base, s) && Next(cfg, base, s, e, s')
    ensures CallsImaged(base, s')
  {
    hide Opaque, IsSha256, Named, CloneMatches, Retainable;
  }

  /** Reservations never over-commit, settling never clips, and every image digest matches the descriptor. */
  lemma StepKeepsInv(cfg: Config, base: Option<string>, s: State, e: Event, s': State)
    requires Inv(cfg, base, s) && Next(cfg, base, s, e, s')
    ensures Inv(cfg, base, s')
    ensures (e.EndSnapshot? ==> s.pendingSnapshots > 0) && (e.EndClone? ==> s.pendingClones > 0)
  {
    hide Next, Counted, SnapshotsImaged, ClonesImaged, CallsImaged;
    StepSnapshotsImaged(cfg, base, s, e, s');
    StepClonesImaged(cfg, base, s, e, s');
    StepCallsImaged(cfg, base, s, e, s');
    match e
    case BeginSnapshot(_, _, _) => SnapshotStepCounted(cfg, base, s, e, s');
    case EndSnapshot(_, _) => SnapshotStepCounted(cfg, base, s, e, s');
    case LookUp(_, _) => CloneStepCounted(cfg, base, s, e, s');
    case ReserveClone(_) => CloneStepCounted(cfg, base, s, e, s');
    case EndClone(_, _) => CloneStepCounted(cfg, base, s, e, s');
    case _ => RemovalCounted(cfg, base, s, e, s');
  }

  /** No step takes away or replaces a snapshot that a retained clone names. */
  lemma NamedSnapshotUntouched(cfg: Config, base: Option<string>, s: State, e: Event, s': State, r: string)
    requires Next(cfg, base, s, e, s') && Named(s, r) && r in s.snapshots
    ensures r in s'.snapshots && s'.snapshots[r] == s.snapshots[r]
  {
  }

  ghost predicate StepAt(cfg: Config, base: Option<string>, ss: seq<State>, es: seq<Event>, i: nat)
    requires |ss| == |es| + 1 && i < |es|
  {
    Next(cfg, base, ss[i], es[i], ss[i + 1])
  }

  ghost predicate IsPath(cfg: Config, base: Option<string>, ss: seq<State>, es: seq<Event>) {
    |ss| == |es| + 1 && forall i :: 0 <= i < |es| ==> StepAt(cfg, base, ss, es, i)
  }

  ghost predicate IsRun(cfg: Config, base: Option<string>, ss: seq<State>, es: seq<Event>) {
    IsPath(cfg, base, ss, es) && ss[0] == EMPTY
  }

  lemma EmptyInv(cfg: Config, base: Option<string>)
    ensures Inv(cfg, base, EMPTY)
  {
  }

  lemma {:induction false} RunKeepsInv(cfg: Config, base: Option<string>, ss: seq<State>, es: seq<Event>, i: nat)
    requires IsRun(cfg, base, ss, es) && i < |ss|
    ensures Inv(cfg, base, ss[i])
  {
    EmptyInv(cfg, base);
    hide Inv, Next;
    if i > 0 {
      RunKeepsInv(cfg, base, ss, es, i - 1);
      assert StepAt(cfg, base, ss, es, i - 1);
      StepKeepsInv(cfg, base, ss[i - 1], es[i - 1], ss[i]);
    }
  }

  /** Every retained clone names a retained snapshot. */
  ghost predicate Anchored(s: State) {
    forall k :: k in s.clones ==> s.clones[k].snapshotRef in s.snapshots
  }

  /** A clone of `r` has been looked up or is with the provider. */
  ghost predicate InFlight(s: State, c: CallId, r: string) {
    c in s.calls && !s.calls[c].Snapshotting? && s.calls[c].snapshot.snapshotRef == r
  }

  /** The step removes a snapshot from under a clone in flight: the guard does not look at those. */
  ghost predicate Races(s: State, e: Event) {
    e.RemoveSnapshot? && e.snapshotRef in s.snapshots && !Named(s, e.snapshotRef) &&
    exists c :: InFlight(s, c, e.snapshotRef)
  }

  ghost predicate AnchoredThroughout(s: State) {
    Anchored(s) && forall c, r :: InFlight(s, c, r) ==> r in s.snapshots
  }

  lemma UsedSnapshotStays(cfg: Config, base: Option<string>, s: State, e: Event, s': State, r: string)
    requires Next(cfg, base, s, e, s') && !Races(s, e) && r in s.snapshots
    requires Named(s, r) || exists c :: InFlight(s, c, r)
    ensures r in s'.snapshots
  {
    hide Retainable, Clonable, InFlight;
  }

  lemma StepCallsAnchored(cfg: Config, base: Option<string>, s: State, e: Event, s': State)
    requires SnapshotsImaged(base, s) && AnchoredThroughout(s) && Next(cfg, base, s, e, s') && !Races(s, e)
    ensures forall c, r :: InFlight(s', c, r) ==> r in s'.snapshots
  {
    hide SnapshotMatches, Races, Retainable, Clonable, Named;
    forall c, r | InFlight(s', c, r) ensures r in s'.snapshots {
      if !e.LookUp? || e.c != c {
        assert InFlight(s, c, r);
        UsedSnapshotStays(cfg, base, s, e, s', r);
      }
    }
  }

  lemma StepClonesAnchored(cfg: Config, base: Option<string>, s: State, e: Event, s': State)
    requires AnchoredThroughout(s) && Next(cfg, base, s, e, s') && !Races(s, e)
    ensures Anchored(s')
  {
    hide Opaque, Races, Retainable;
    forall k | k in s'.clones ensures s'.clones[k].snapshotRef in s'.snapshots {
      var r := s'.clones[k].snapshotRef;
      if k in s.clones && s.clones[k] == s'.clones[k] {
        assert Named(s, r);
      } else {
        assert InFlight(s, e.c, r);
      }
      UsedSnapshotStays(cfg, base, s, e, s', r);
    }
  }

  lemma EmptyAnchored()
    ensures AnchoredThroughout(EMPTY)
  {
  }

  /** Without such a removal, every clone in every state of the run names a retained snapshot. */
  lemma {:induction false} RaceFreeRunAnchored(
    cfg: Config, base: Option<string>, ss: seq<State>, es: seq<Event>, i: nat)
    requires IsRun(cfg, base, ss, es) && i < |ss|
    requires forall j :: 0 <= j < i ==> !Races(ss[j], es[j])
    ensures AnchoredThroughout(ss[i])
  {
    hide Next, Races, Anchored, Counted, SnapshotsImaged, ClonesImaged, CallsImaged;
    if i == 0 {
      EmptyAnchored();
    } else {
      RaceFreeRunAnchored(cfg, base, ss, es, i - 1);
      RunKeepsInv(cfg, base, ss, es, i - 1);
      assert StepAt(cfg, base, ss, es, i - 1);
      StepCallsAnchored(cfg, base, ss[i - 1], es[i - 1], ss[i]);
      StepClonesAnchored(cfg, base, ss[i - 1], es[i - 1], ss[i]);
    }
  }

  lemma EndingDangles(
    cfg: Config, base: Option<string>, s: State, c: CallId, environmentRef: string, generation: string)
    returns (e: Event, s': State)
    requires CallsImaged(base, s) && c in s.calls && s.calls[c].Cloning?
    requires s.calls[c].snapshot.snapshotRef !in s.snapshots
    requires Opaque(environmentRef, 128) && environmentRef !in s.clones && Opaque(generation, 128)
    ensures Next(cfg, base, s, e, s') && !Anchored(s')
  {
    hide Opaque;
    var from := s.calls[c].snapshot;
    var machine := Provisioned(environmentRef, generation, from.snapshotRef, from.baseImage);
    e := EndClone(c, Some(machine));
    s' := s.(pendingClones := SaturatingSub(s.pendingClones, 1), calls := s.calls - {c},
             clones := s.clones[environmentRef := machine]);
    assert environmentRef in s'.clones;
  }

  /** A full manager can always be brought below its clone limit by one release or one failed provider call. */
  lemma RoomCanBeMade(cfg: Config, base: Option<string>, s: State, c: CallId) returns (e: Event, s': State)
    requires Inv(cfg, base, s) && cfg.maxClones > 0 && |s.clones| + s.pendingClones >= cfg.maxClones
    requires c in s.calls && s.calls[c].LookedUp?
    ensures Next(cfg, base, s, e, s') && |s'.clones| + s'.pendingClones < cfg.maxClones
    ensures c in s'.calls && s'.calls[c] == s.calls[c]
    ensures s'.snapshots == s.snapshots && s'.clones.Keys <= s.clones.Keys
  {
    hide Imaged;
    if s.pendingClones > 0 {
      var d :| d in CloneCalls(s.calls);
      e := EndClone(d, None);
      s' := s.(pendingClones := SaturatingSub(s.pendingClones, 1), calls := s.calls - {d});
    } else {
      var k :| k in s.clones;
      e := ReleaseClone(k);
      s' := s.(clones := s.clones - {k});
      assert s.clones == (s.clones - {k})[k := s.clones[k]];
      OneMoreKey(s.clones - {k}, k, s.clones[k]);
    }
  }

  /** Conversely, from every state in which such a removal happens, the provider can make a clone dangle. */
  lemma RacyRemovalCanDangle(
    cfg: Config, base: Option<string>, s: State, r: string, environmentRef: string, generation: string)
    returns (ss: seq<State>, es: seq<Event>)
    requires Inv(cfg, base, s) && cfg.maxClones > 0 && Races(s, RemoveSnapshot(r))
    requires Opaque(environmentRef, 128) && environmentRef !in s.clones && Opaque(generation, 128)
    ensures IsPath(cfg, base, ss, es) && |es| > 0 && ss[0] == s && es[0] == RemoveSnapshot(r)
    ensures !Anchored(ss[|ss| - 1])
  {
    hide Opaque, Anchored, Counted, SnapshotsImaged, ClonesImaged, Retainable, Clonable;
    var c :| InFlight(s, c, r);
    var s1 := s.(snapshots := s.snapshots - {r});
    StepKeepsInv(cfg, base, s, RemoveSnapshot(r), s1);
    ss, es := [s, s1], [RemoveSnapshot(r)];
    assert IsPath(cfg, base, ss, es) by { assert StepAt(cfg, base, ss, es, 0); }
    var at := s1;
    if at.calls[c].LookedUp? {
      if |at.clones| + at.pendingClones >= cfg.maxClones {
        var e, t := RoomCanBeMade(cfg, base, at, c);
        StepKeepsInv(cfg, base, at, e, t);
        Extends(cfg, base, ss, es, e, t);
        ss, es, at := ss + [t], es + [e], t;
      }
      var u := at.(pendingClones := at.pendingClones + 1, calls := at.calls[c := Cloning(at.calls[c].snapshot)]);
      StepKeepsInv(cfg, base, at, ReserveClone(c), u);
      Extends(cfg, base, ss, es, ReserveClone(c), u);
      ss, es, at := ss + [u], es + [ReserveClone(c)], u;
    }
    var e, t := EndingDangles(cfg, base, at, c, environmentRef, generation);
    Extends(cfg, base, ss, es, e, t);
    ss, es := ss + [t], es + [e];
  }

  lemma Extends(cfg: Config, base: Option<string>, ss: seq<State>, es: seq<Event>, e: Event, t: State)
    requires IsPath(cfg, base, ss, es) && Next(cfg, base, ss[|ss| - 1], e, t)
    ensures IsPath(cfg, base, ss + [t], es + [e])
  {
    hide Next;
    forall i | 0 <= i < |es| + 1 ensures StepAt(cfg, base, ss + [t], es + [e], i) {
      if i < |es| { assert StepAt(cfg, base, ss, es, i); }
    }
  }

  /**
   Such a removal is reached: from nothing, through one snapshot and one clone of it, to a retained
   clone without its snapshot. Any snapshot and environment the provider may name will do.
   */
  lemma DanglingRun(cfg: Config, base: Option<string>, x: Snapshot, environmentRef: string, generation: string)
    returns (ss: seq<State>, es: seq<Event>)
    requires cfg.maxSnapshots > 0 && cfg.maxClones > 0 && SnapshotMatches(base, x.worker, x.epoch, x)
    requires Opaque(environmentRef, 128) && Opaque(generation, 128)
    ensures IsRun(cfg, base, ss, es) && !Anchored(ss[|ss| - 1])
  {
    hide Opaque, SnapshotMatches, Anchored;
    var r := x.snapshotRef;
    var s1 := EMPTY.(pendingSnapshots := 1, calls := map[0 := Snapshotting(x.worker, x.epoch)]);
    var s2 := EMPTY.(snapshots := map[r := x]);
    var s3 := s2.(calls := map[1 := LookedUp(x)]);
    assert Next(cfg, base, EMPTY, BeginSnapshot(0, x.worker, x.epoch), s1);
    assert Next(cfg, base, s1, EndSnapshot(0, Some(x)), s2);
    assert Next(cfg, base, s2, LookUp(1, r), s3);
    var ss0 := [EMPTY, s1, s2, s3];
    var es0 := [BeginSnapshot(0, x.worker, x.epoch), EndSnapshot(0, Some(x)), LookUp(1, r)];
    assert StepAt(cfg, base, ss0, es0, 0) && StepAt(cfg, base, ss0, es0, 1) && StepAt(cfg, base, ss0, es0, 2);
    RunKeepsInv(cfg, base, ss0, es0, 3);
    assert Races(s3, RemoveSnapshot(r)) by { assert InFlight(s3, 1, r); }
    var ss1, es1 := RacyRemovalCanDangle(cfg, base, s3, r, environmentRef, generation);
    PathsJoin(cfg, base, ss0, es0, ss1, es1);
    ss, es := ss0 + ss1[1..], es0 + es1;
  }

  lemma PathsJoin(
    cfg: Config, base: Option<string>, ss: seq<State>, es: seq<Event>, ss': seq<State>, es': seq<Event>)
    requires IsPath(cfg, base, ss, es) && IsPath(cfg, base, ss', es') && ss[|ss| - 1] == ss'[0]
    ensures IsPath(cfg, base, ss + ss'[1..], es + es')
  {
    hide Next;
    var all, steps := ss + ss'[1..], es + es';
    forall i | 0 <= i < |steps| ensures StepAt(cfg, base, all, steps, i) {
      if i < |es| { assert StepAt(cfg, base, ss, es, i); } else { assert StepAt(cfg, base, ss', es', i - |es|); }
    }
  }
}
