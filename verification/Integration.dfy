/**
 Installing and removing the MCP integration: a registration, a Skill file, a host alias and a
 receipt, changed one after the other while any step may fail. No other process writes meanwhile.
 */
module Integration {
  import opened Common
  import opened PrivateStore

  type Digest = string

  datatype Alias = Alias(command: string, args: seq<string>, sha: Digest)

  datatype Transport = Stdio | StreamableHttp

  datatype Adapter = Mcp(transport: Transport, toolProfile: string) | Cli

  /** The authority-bearing registration. */
  datatype Request = Request(
    registration: string, provider: string, version: string, hostIdentity: string, adapter: Adapter)

  /** What a plan and the receipt made from it agree on. */
  datatype Binding = Binding(
    host: string, profile: string, alias: string, version: string, transport: Transport, toolProfile: string,
    hostExecutable: string, hostIdentity: string, runtimeSha: Digest)

  datatype Plan = Plan(
    schema: nat, planRef: string, registration: string, created: nat, expires: nat, binding: Binding,
    runtime: string, skill: Digest, precondition: Digest, request: Request)

  datatype Receipt = Receipt(
    schema: nat, registration: string, installed: nat, binding: Binding, runtime: string, skill: Digest,
    aliasSha: Digest)

  datatype Record = PlanRecord(plan: Plan) | ReceiptRecord(receipt: Receipt)

  datatype IntegrationError = StalePlan | StateDrift | SkillConflict | Failed | RollbackIncomplete

  const PLAN_SCHEMA: nat := 1
  const RECEIPT_SCHEMA: nat := 1
  const PLAN_TTL: nat := 10 * 60 * 1_000
  const U64_MAX: nat := 0xFFFF_FFFF_FFFF_FFFF
  const MCP_ALIAS := "nexuscua"
  const PROVIDER := "nexuscua.local.v1"
  const PREFIX := "registration_"

  predicate BindingValid(b: Binding, version: string) {
    && b.host == "codex" && b.profile == "mcp" && b.alias == MCP_ALIAS && b.version == version
    && b.transport == Stdio && (b.toolProfile == "full" || b.toolProfile == "vision")
  }

  predicate PlanValid(plan: Plan, planRef: string, now: nat, version: string, embedded: Digest) {
    && plan.schema == PLAN_SCHEMA && plan.planRef == planRef && plan.created <= now <= plan.expires
    && plan.expires == (if plan.created + PLAN_TTL > U64_MAX then U64_MAX else plan.created + PLAN_TTL)
    && BindingValid(plan.binding, version) && plan.skill == embedded
    && plan.request == Request(plan.registration, PROVIDER, version, plan.binding.hostIdentity,
                               Mcp(Stdio, plan.binding.toolProfile))
  }

  predicate ReceiptValid(receipt: Receipt, registration: string, version: string, embedded: Digest) {
    && receipt.schema == RECEIPT_SCHEMA && receipt.registration == registration
    && BindingValid(receipt.binding, version) && receipt.skill == embedded
  }

  function ReceiptOf(plan: Plan, now: nat, aliasSha: Digest): Receipt {
    Receipt(RECEIPT_SCHEMA, plan.registration, now, plan.binding, plan.runtime, plan.skill, aliasSha)
  }

  /** What the executables on disk are when an operation looks: `readable` is false where looking fails. */
  datatype Executables = Executables(
    readable: bool, host: string, hostIdentity: string, runtime: string, runtimeSha: Digest, skillRootPlain: bool)

  predicate SameHost(b: Binding, x: Executables) {
    x.host == b.hostExecutable && x.hostIdentity == b.hostIdentity
  }

  function ReceiptRef(registration: string): string {
    if PREFIX <= registration then "receipt_" + registration[|PREFIX|..] else registration
  }

  function LaunchArgs(registration: string): seq<string> {
    ["mcp", "launch", "--registration", registration]
  }

  predicate Owned(alias: Option<Alias>, runtime: string, registration: string) {
    alias.Some? && alias.value.command == runtime && alias.value.args == LaunchArgs(registration)
  }

  /** `readBack` is whether the freshly written Skill reads back with the expected digest. */
  datatype SkillFaults = SkillFaults(
    root: Io, rootIsPlain: bool, directory: Io, open: Io, write: Io, sync: Io, readBack: bool,
    undoFile: Io, undoDirectory: Io)

  datatype UnskillFaults = UnskillFaults(read: Io, file: Io, directory: Io)

  datatype RollbackFaults = RollbackFaults(registration: RemoveFaults, inspect: Io, alias: Io, skill: UnskillFaults)

  /** What the outside does during one apply. `written` is the alias the host command writes when asked to add ours. */
  datatype ApplyWorld = ApplyWorld(
    authorityValid: bool, executables: Executables, inspectBefore: Io, configuration: Digest, consume: RemoveFaults,
    registrationRoom: bool, registration: InstallFaults, skill: SkillFaults, add: Io, written: Alias,
    inspectAfter: Io, stateRoom: bool, receipt: InstallFaults, rollback: RollbackFaults)

  datatype RemovalWorld = RemovalWorld(
    registration: RemoveFaults, executables: Executables, inspect: Io, read: Io, alias: Io,
    skill: UnskillFaults, receipt: RemoveFaults)

  predicate SkillInstalls(f: SkillFaults) {
    && f.root == Done && f.rootIsPlain && f.directory == Done
    && f.open == Done && f.write == Done && f.sync == Done && f.readBack
  }

  /** A failed Skill install leaves its directory when making it lied or when discarded clean-up could not remove it. */
  predicate SkillLeaks(f: SkillFaults) {
    && f.root == Done && f.rootIsPlain
    && (f.directory == Lied ||
        (f.directory == Done && ((Effective(f.open) && f.undoFile == Refused) || f.undoDirectory == Refused)))
  }

  predicate SkillRemoves(skill: Option<Digest>, directory: bool, expected: Digest, f: UnskillFaults) {
    && f.read == Done && (skill == None || (skill == Some(expected) && f.file == Done))
    && (directory ==> f.directory == Done)
  }

  /** The state as values: what one apply starts from. */
  datatype Before = Before(
    registrations: map<string, Option<Request>>, registrationSecrets: set<string>,
    states: map<string, Option<Record>>, stateSecrets: set<string>, embedded: Digest)

  predicate Unregistered(b: Before, plan: Plan) {
    plan.registration !in b.registrations && plan.registration !in b.registrationSecrets
  }

  predicate Registers(b: Before, plan: Plan, w: ApplyWorld) {
    && Unregistered(b, plan) && w.registrationRoom
    && w.registration.put == Done && !WriteFails(w.registration)
  }

  predicate Skills(b: Before, plan: Plan, w: ApplyWorld) {
    b.embedded == plan.skill && SkillInstalls(w.skill)
  }

  predicate AliasAppears(plan: Plan, w: ApplyWorld) {
    Effective(w.add) && Owned(Some(w.written), plan.runtime, plan.registration)
  }

  predicate Adds(plan: Plan, w: ApplyWorld) {
    w.add == Done && w.inspectAfter == Done && Owned(Some(w.written), plan.runtime, plan.registration)
  }

  predicate ReceiptFree(b: Before, plan: Plan) {
    ReceiptRef(plan.registration) !in b.states && ReceiptRef(plan.registration) !in b.stateSecrets
  }

  predicate Receipts(b: Before, plan: Plan, w: ApplyWorld) {
    ReceiptFree(b, plan) && w.stateRoom && w.receipt.put == Done && !WriteFails(w.receipt)
  }

  predicate Applies(b: Before, plan: Plan, w: ApplyWorld) {
    Registers(b, plan, w) && Skills(b, plan, w) && Adds(plan, w) && Receipts(b, plan, w)
  }

  /** The fault schedules under which a failing apply leaves something behind without saying so. */
  predicate ApplyLeaks(b: Before, plan: Plan, w: ApplyWorld) {
    if !Registers(b, plan, w) then Unregistered(b, plan) && w.registrationRoom && Leaks(w.registration)
    else if !Skills(b, plan, w) then b.embedded == plan.skill && SkillLeaks(w.skill)
    else Adds(plan, w) && !Receipts(b, plan, w) && ReceiptFree(b, plan) && w.stateRoom && Leaks(w.receipt)
  }

  /** A rollback is reported complete exactly when every removal it attempts succeeds. */
  predicate RollsBack(b: Before, plan: Plan, w: ApplyWorld) {
    && (Registers(b, plan, w) ==> w.rollback.registration == NO_REMOVE_FAULTS)
    && w.rollback.inspect == Done
    && (Registers(b, plan, w) && Skills(b, plan, w) ==>
          && (AliasAppears(plan, w) ==> w.rollback.alias == Done)
          && SkillRemoves(Some(plan.skill), true, plan.skill, w.rollback.skill))
  }

  function Consumed(b: Before, planRef: string): Before {
    b.(states := b.states - {planRef}, stateSecrets := b.stateSecrets - {planRef})
  }

  /** Consuming the plan changes nothing the stages look at. */
  lemma SameStages(b: Before, plan: Plan, planRef: string, w: ApplyWorld)
    requires "plan_" <= planRef && PREFIX <= plan.registration
    ensures var b' := Consumed(b, planRef);
      && Unregistered(b', plan) == Unregistered(b, plan) && Applies(b', plan, w) == Applies(b, plan, w)
      && ApplyLeaks(b', plan, w) == ApplyLeaks(b, plan, w) && RollsBack(b', plan, w) == RollsBack(b, plan, w)
  {
    assert ReceiptRef(plan.registration)[0] == 'r';
  }

  class Machine {
    const registrations: Store<Request>
    const states: Store<Record>
    const embedded: Digest
    const version: string
    var alias: Option<Alias>
    var skillDirectory: bool
    var skill: Option<Digest>
    ghost var applied: set<string>

    /** A plan that was ever applied successfully is gone, and a stored plan sits under its own name. */
    ghost predicate Valid()
      reads this, registrations, states
    {
      && registrations as object != states && (skill.Some? ==> skillDirectory)
      && (forall p :: p in applied ==> "plan_" <= p && p !in states.files)
      && (forall n :: n in states.files && states.files[n].Some? && states.files[n].value.PlanRecord? ==>
            PREFIX <= states.files[n].value.plan.registration)
    }

    constructor (embedded: Digest, version: string)
      ensures Valid() && fresh(registrations) && fresh(states) && this.embedded == embedded && this.version == version
      ensures registrations.files == map[] && registrations.secrets == {}
      ensures states.files == map[] && states.secrets == {}
      ensures alias == None && !skillDirectory && skill == None && applied == {}
    {
      registrations := new Store();
      states := new Store();
      this.embedded, this.version := embedded, version;
      alias, skillDirectory, skill, applied := None, false, None, {};
    }

    /** The embedded Skill, or an error that leaves the Skill as it was unless clean-up failed. */
    method InstallSkill(expected: Digest, f: SkillFaults) returns (r: Result<(), IntegrationError>)
      requires skill.Some? ==> skillDirectory
      modifies this`skillDirectory, this`skill
      ensures skill.Some? ==> skillDirectory
      ensures r.Ok? <==>
        && embedded == expected && !old(skillDirectory) && f.root == Done && f.rootIsPlain && f.directory == Done
        && f.open == Done && f.write == Done && f.sync == Done && f.readBack
      ensures
        r.Err? && !old(skillDirectory) && f.directory != Lied && f.undoFile != Refused && f.undoDirectory != Refused ==>
        !skillDirectory && skill == None
      ensures r.Ok? ==> skillDirectory && skill == Some(expected)
      ensures old(skillDirectory) ==> skillDirectory && skill == old(skill)
      ensures r.Err? && !old(skillDirectory) ==> (skillDirectory <==> embedded == expected && SkillLeaks(f))
      ensures
        && r.Err? && !old(skillDirectory) && embedded == expected && f.root == Done && f.rootIsPlain
        && f.directory == Done && f.open != Refused && f.undoFile == Refused ==>
        skill == Some(if f.open == Done && f.write != Refused then embedded else "")
      ensures r == Err(StateDrift) <==>
        || embedded != expected
        || (f.root == Done && (!f.rootIsPlain ||
              (!old(skillDirectory) && f.directory == f.open == f.write == f.sync == Done && !f.readBack)))
      ensures r.Err? ==> r.error in {StateDrift, SkillConflict, Failed}
      ensures r == Err(SkillConflict) <==>
        embedded == expected && f.root == Done && f.rootIsPlain && old(skillDirectory)
    {
      if embedded != expected { return Err(StateDrift); }
      if f.root != Done { return Err(Failed); }
      if !f.rootIsPlain { return Err(StateDrift); }
      if skillDirectory { return Err(SkillConflict); }
      if Effective(f.directory) { skillDirectory := true; }
      if f.directory != Done { return Err(Failed); }
      r := Err(Failed);
      if Effective(f.open) { skill := Some(""); }
      if f.open == Done {
        if Effective(f.write) { skill := Some(embedded); }
        if f.write == Done && f.sync == Done {
          r := if f.readBack then Ok(()) else Err(StateDrift);
        }
      }
      if r.Err? {
        if Effective(f.undoFile) { skill := None; }
        if Effective(f.undoDirectory) && skill.None? { skillDirectory := false; }
      }
    }

    /** Deletes the Skill only where its content is the expected one. */
    method RemoveSkill(expected: Digest, f: UnskillFaults) returns (ok: bool)
      requires skill.Some? ==> skillDirectory
      modifies this`skillDirectory, this`skill
      ensures skill.Some? ==> skillDirectory
      ensures ok ==> skill == None && !skillDirectory
      ensures f.file == Refused ==> skill == old(skill)
      ensures f.directory == Refused ==> skillDirectory == old(skillDirectory)
      ensures f.read == Done && f.file == Done && f.directory == Done ==>
        (ok <==> old(skill) == None || old(skill) == Some(expected))
      ensures
        f.read != Done || (old(skill).Some? && f.file != Done) || (old(skillDirectory) && f.directory != Done) ==>
        !ok
      ensures old(skill).Some? && old(skill) != Some(expected) ==> !ok && skill == old(skill) && skillDirectory
      ensures skill == old(skill) || skill == None
      ensures ok <==> SkillRemoves(old(skill), old(skillDirectory), expected, f)
    {
      if f.read != Done { return false; }
      if skill.Some? {
        if skill.value != expected { return false; }
        if Effective(f.file) { skill := None; }
        if f.file != Done { return false; }
      }
      ok := true;
      if skillDirectory {
        if Effective(f.directory) { skillDirectory := false; }
        ok := f.directory == Done;
      }
    }

    /** Undoes what was installed; an alias is removed only if it launches this registration. */
    method Rollback(plan: Plan, f: RollbackFaults, registered: bool, skilled: bool) returns (clean: bool)
      requires Valid()
      modifies this`alias, this`skillDirectory, this`skill, registrations
      ensures skill.Some? ==> skillDirectory
      ensures clean ==> !Owned(alias, plan.runtime, plan.registration)
      ensures clean && registered ==>
        && registrations.files == old(registrations.files) - {plan.registration}
        && registrations.secrets == old(registrations.secrets) - {plan.registration}
      ensures clean && skilled ==> skill == None && !skillDirectory
      ensures !registered ==>
        registrations.files == old(registrations.files) && registrations.secrets == old(registrations.secrets)
      ensures !skilled ==> skill == old(skill) && skillDirectory == old(skillDirectory)
      ensures !Owned(old(alias), plan.runtime, plan.registration) || f.alias == Refused ==> alias == old(alias)
      ensures clean <==>
        && (registered ==> f.registration == NO_REMOVE_FAULTS) && f.inspect == Done
        && (Owned(old(alias), plan.runtime, plan.registration) ==> f.alias == Done)
        && (skilled ==> SkillRemoves(old(skill), old(skillDirectory), plan.skill, f.skill))
    {
      clean := true;
      if registered {
        clean := registrations.Remove(plan.registration, f.registration);
      }
      if f.inspect != Done {
        clean := false;
      } else if Owned(alias, plan.runtime, plan.registration) {
        if Effective(f.alias) { alias := None; }
        if f.alias != Done { clean := false; }
      }
      if skilled {
        var removed := RemoveSkill(plan.skill, f.skill);
        if !removed { clean := false; }
      }
    }

    function Snapshot(): Before
      reads this, registrations, states
    {
      Before(registrations.files, registrations.secrets, states.files, states.secrets, embedded)
    }

    predicate Stored(planRef: string)
      reads states
    {
      "plan_" <= planRef && states.Live(planRef) && states.files[planRef].value.PlanRecord?
    }

    /** The fixed parts of a plan and its receipt. */
    predicate SoundBinding(b: Binding) {
      && b.host == "codex" && b.profile == "mcp" && b.alias == "nexuscua" && b.version == version
      && b.transport == Stdio && b.toolProfile in {"full", "vision"}
    }

    /** A plan as `plan` writes it, within its ten minutes. */
    predicate Conforms(plan: Plan, planRef: string, now: nat) {
      && plan.planRef == planRef && plan.schema == 1 && plan.created <= now <= plan.expires
      && (plan.expires == plan.created + 600_000 < 0x1_0000_0000_0000_0000 ||
          plan.expires == 0xFFFF_FFFF_FFFF_FFFF < plan.created + 600_000)
      && SoundBinding(plan.binding) && plan.skill == embedded
      && plan.request ==
         Request(plan.registration, "nexuscua.local.v1", version, plan.binding.hostIdentity,
                 Mcp(Stdio, plan.binding.toolProfile))
    }

    /** The executables are the planned ones, and nothing is where the Skill is to go. */
    predicate SettingAgrees(plan: Plan, x: Executables)
      reads this
    {
      && x.host == plan.binding.hostExecutable && x.hostIdentity == plan.binding.hostIdentity
      && x.runtime == plan.runtime && x.runtimeSha == plan.binding.runtimeSha && x.skillRootPlain
      && skill == None && !skillDirectory
    }

    /** The checks pass and the stored plan is consumed. */
    predicate Ready(planRef: string, now: nat, w: ApplyWorld)
      reads this, states
    {
      && "plan_" <= planRef && states.Live(planRef) && states.files[planRef].value.PlanRecord?
      && var plan := states.files[planRef].value.plan;
      && PlanValid(plan, planRef, now, version, embedded) && w.authorityValid
      && w.executables.readable && SameHost(plan.binding, w.executables) && w.executables.runtime == plan.runtime
      && w.executables.runtimeSha == plan.binding.runtimeSha && w.executables.skillRootPlain
      && skill == None && !skillDirectory
      && w.inspectBefore == Done && w.configuration == plan.precondition && alias == None
      && w.consume == NO_REMOVE_FAULTS
    }

    method Prepare(planRef: string, now: nat, w: ApplyWorld) returns (r: Result<Plan, IntegrationError>)
      requires Valid()
      modifies states
      ensures Valid()
      ensures r.Ok? <==> old(Ready(planRef, now, w))
      ensures r.Ok? ==>
        var plan, x := r.value, w.executables;
        && plan.planRef == planRef && plan.schema == 1 && plan.created <= now <= plan.created + 600_000
        && SoundBinding(plan.binding) && plan.skill == embedded
        && plan.request.registration == plan.registration && plan.request.provider == "nexuscua.local.v1"
        && plan.request.version == version && plan.request.hostIdentity == plan.binding.hostIdentity
        && plan.request.adapter == Mcp(Stdio, plan.binding.toolProfile)
        && x.host == plan.binding.hostExecutable && x.hostIdentity == plan.binding.hostIdentity
        && x.runtime == plan.runtime && x.runtimeSha == plan.binding.runtimeSha
        && w.configuration == plan.precondition && alias == None && skill == None && !skillDirectory
      ensures old(Stored(planRef)) ==>
        var plan := old(states.files)[planRef].value.plan;
        now < plan.created || now > plan.expires ==>
          r == Err(StalePlan) && states.files == old(states.files) && states.secrets == old(states.secrets)
      ensures r.Ok? <==>
        && old(Stored(planRef))
        && var plan, x := old(states.files)[planRef].value.plan, w.executables;
        && Conforms(plan, planRef, now) && w.authorityValid && x.readable && x.host == plan.binding.hostExecutable
        && x.hostIdentity == plan.binding.hostIdentity && x.runtime == plan.runtime
        && x.runtimeSha == plan.binding.runtimeSha && x.skillRootPlain && skill == None && !skillDirectory
        && w.inspectBefore == Done && w.configuration == plan.precondition && alias == None
        && w.consume.file == Done && w.consume.secret == Done
      ensures r.Ok? ==>
        && r.value == old(states.files)[planRef].value.plan
        && states.files == old(states.files) - {planRef} && states.secrets == old(states.secrets) - {planRef}
      ensures r.Err? ==>
        && r.error in {StalePlan, StateDrift, Failed}
        && (states.files == old(states.files) || states.files == old(states.files) - {planRef})
      ensures r == Err(StateDrift) <==>
        && old(Stored(planRef)) && var plan := old(states.files)[planRef].value.plan;
        && Conforms(plan, planRef, now) && w.authorityValid && w.executables.readable
        && !SettingAgrees(plan, w.executables)
      ensures r == Err(StalePlan) <==>
        || !("plan_" <= planRef)
        || (old(Stored(planRef)) && var plan := old(states.files)[planRef].value.plan;
            || !Conforms(plan, planRef, now)
            || (w.authorityValid && w.executables.readable && SettingAgrees(plan, w.executables) &&
                w.inspectBefore == Done && (w.configuration != plan.precondition || alias.Some?)))
    {
      if !("plan_" <= planRef) { return Err(StalePlan); }
      if !states.Live(planRef) { return Err(Failed); }
      if !states.files[planRef].value.PlanRecord? { return Err(Failed); }
      var plan := states.files[planRef].value.plan;
      if !PlanValid(plan, planRef, now, version, embedded) { return Err(StalePlan); }
      if !w.authorityValid { return Err(Failed); }
      if !w.executables.readable { return Err(Failed); }
      if !SameHost(plan.binding, w.executables) { return Err(StateDrift); }
      if w.executables.runtime != plan.runtime || w.executables.runtimeSha != plan.binding.runtimeSha {
        return Err(StateDrift);
      }
      if !w.executables.skillRootPlain || skill.Some? || skillDirectory { return Err(StateDrift); }
      if w.inspectBefore != Done { return Err(Failed); }
      if w.configuration != plan.precondition || alias.Some? { return Err(StalePlan); }
      var consumed := states.Remove(planRef, w.consume);
      r := if consumed then Ok(plan) else Err(Failed);
    }

    /** The installing steps in order, stopping at the first failure and reporting how far they got. */
    method Perform(plan: Plan, now: nat, w: ApplyWorld)
      returns (r: Result<Receipt, IntegrationError>, registered: bool, skilled: bool)
      requires Valid() && PREFIX <= plan.registration && alias == None && skill == None && !skillDirectory
      modifies this`alias, this`skillDirectory, this`skill, registrations, states
      ensures Valid()
      ensures forall n :: n in states.files ==> n in old(states.files) || n == ReceiptRef(plan.registration)
      ensures registered <==> old(Registers(Snapshot(), plan, w))
      ensures skilled <==> registered && old(Skills(Snapshot(), plan, w))
      ensures r.Ok? <==> old(Applies(Snapshot(), plan, w))
      ensures r.Err? ==> r.error != RollbackIncomplete
      ensures r.Ok? ==>
        && r.value == ReceiptOf(plan, now, w.written.sha) && alias == Some(w.written)
        && states.files == old(states.files)[ReceiptRef(plan.registration) := Some(ReceiptRecord(r.value))]
        && states.secrets == old(states.secrets) + {ReceiptRef(plan.registration)}
      ensures r.Err? && !(skilled && Adds(plan, w)) ==>
        states.files == old(states.files) && states.secrets == old(states.secrets)
      ensures r.Err? && skilled && Adds(plan, w) ==>
        (states.files != old(states.files) || states.secrets != old(states.secrets) <==>
         old(ReceiptFree(Snapshot(), plan)) && w.stateRoom && Leaks(w.receipt))
      ensures registered ==>
        && plan.registration !in old(registrations.files) && plan.registration !in old(registrations.secrets)
        && registrations.files == old(registrations.files)[plan.registration := Some(plan.request)]
        && registrations.secrets == old(registrations.secrets) + {plan.registration}
      ensures !registered ==>
        (registrations.files != old(registrations.files) || registrations.secrets != old(registrations.secrets) <==>
         old(ApplyLeaks(Snapshot(), plan, w)))
      ensures !registered && old(Unregistered(Snapshot(), plan)) ==>
        (registrations.Live(plan.registration) <==> w.registrationRoom && LeavesLive(w.registration))
      ensures skilled ==> skill == Some(plan.skill) && skillDirectory
      ensures !registered ==> skill == None && !skillDirectory
      ensures registered && !skilled ==> (skillDirectory <==> old(ApplyLeaks(Snapshot(), plan, w)))
      ensures alias == if skilled && Effective(w.add) then Some(w.written) else None
      ensures !registered ==> r == Err(Failed)
      ensures skilled ==>
        (r == Err(StateDrift) <==>
          && w.add == Done && w.inspectAfter == Done
          && !(w.written.command == plan.runtime &&
               w.written.args == ["mcp", "launch", "--registration", plan.registration]))
      ensures r.Err? ==> r.error in {StateDrift, SkillConflict, Failed}
    {
      registered, skilled := false, false;
      var ok := registrations.Install(plan.registration, plan.request, w.registrationRoom, w.registration);
      if !ok { return Err(Failed), false, false; }
      registered := true;
      var installed := InstallSkill(plan.skill, w.skill);
      if installed.Err? { return Err(installed.error), true, false; }
      skilled := true;
      if Effective(w.add) { alias := Some(w.written); }
      if w.add != Done { return Err(Failed), true, true; }
      if w.inspectAfter != Done { return Err(Failed), true, true; }
      if !Owned(alias, plan.runtime, plan.registration) { return Err(StateDrift), true, true; }
      var receipt := ReceiptOf(plan, now, alias.value.sha);
      assert ReceiptRef(plan.registration)[0] == 'r';
      ok := states.Install(ReceiptRef(plan.registration), ReceiptRecord(receipt), w.stateRoom, w.receipt);
      r := if ok then Ok(receipt) else Err(Failed);
    }

    /**
     Applies a stored plan. Success leaves the registration, the Skill, the alias and the receipt, and
     no plan succeeds twice. A failure other than `RollbackIncomplete` leaves no alias that launches
     the registration, and restores everything else exactly when no discarded clean-up failed.
     */
    method Apply(planRef: string, now: nat, w: ApplyWorld) returns (r: Result<Receipt, IntegrationError>)
      requires Valid()
      modifies this`alias, this`skillDirectory, this`skill, this`applied, registrations, states
      ensures Valid()
      ensures applied == if r.Ok? then old(applied) + {planRef} else old(applied)
      ensures r.Ok? ==> planRef !in old(applied) && planRef !in states.files
      ensures r.Ok? ==>
        && old(Stored(planRef))
        && var plan := old(states.files)[planRef].value.plan;
        && plan.created <= now <= plan.created + 600_000 && SoundBinding(plan.binding)
        && plan.request.hostIdentity == w.executables.hostIdentity && skill == Some(embedded)
        && plan.request.adapter == Mcp(Stdio, plan.binding.toolProfile) && plan.runtime == w.executables.runtime
        && Launches(plan, now, r.value)
      ensures old(Stored(planRef)) ==>
        var plan := old(states.files)[planRef].value.plan;
        now < plan.created || now > plan.expires ==>
          && r == Err(StalePlan) && alias == old(alias) && skill == old(skill) && skillDirectory == old(skillDirectory)
          && states.files == old(states.files) && states.secrets == old(states.secrets)
          && registrations.files == old(registrations.files) && registrations.secrets == old(registrations.secrets)
      ensures !old(Ready(planRef, now, w)) ==>
        && r.Err? && r.error != RollbackIncomplete
        && alias == old(alias) && skill == old(skill) && skillDirectory == old(skillDirectory)
        && registrations.files == old(registrations.files) && registrations.secrets == old(registrations.secrets)
      ensures old(Ready(planRef, now, w)) ==>
        var plan := old(states.files)[planRef].value.plan;
        var b := old(Snapshot());
        && (r.Ok? <==> Applies(b, plan, w))
        && (r == Err(RollbackIncomplete) <==> !Applies(b, plan, w) && !RollsBack(b, plan, w))
        && (r.Ok? ==> Removable(plan.registration) && Integrated(plan, now, r.value))
        && (r.Err? && r.error != RollbackIncomplete ==>
              && !Owned(alias, plan.runtime, plan.registration)
              && (Restored(Consumed(b, planRef)) <==> !ApplyLeaks(b, plan, w))
              && (Unregistered(b, plan) ==>
                    (registrations.Live(plan.registration) <==> w.registrationRoom && LeavesLive(w.registration))))
    {
      hide LeavesLive, Owned, Applies, ApplyLeaks, RollsBack, Unregistered;
      ghost var b := Snapshot();
      var prepared := Prepare(planRef, now, w);
      if prepared.Err? { return Err(prepared.error); }
      var plan := prepared.value;
      SameStages(b, plan, planRef, w);
      assert Snapshot() == Consumed(b, planRef);
      assert ReceiptRef(plan.registration)[0] == 'r';
      r := Carry(plan, now, w);
      if r.Ok? { applied := applied + {planRef}; }
    }

    /** Everything after the plan is consumed: perform, and undo on failure. */
    method Carry(plan: Plan, now: nat, w: ApplyWorld) returns (r: Result<Receipt, IntegrationError>)
      requires Valid() && PREFIX <= plan.registration && alias == None && skill == None && !skillDirectory
      modifies this`alias, this`skillDirectory, this`skill, registrations, states
      ensures Valid()
      ensures r.Ok? <==> old(Applies(Snapshot(), plan, w))
      ensures forall n :: n in states.files ==> n in old(states.files) || n == ReceiptRef(plan.registration)
      ensures r == Err(RollbackIncomplete) <==> r.Err? && !old(RollsBack(Snapshot(), plan, w))
      ensures r.Ok? ==> Integrated(plan, now, r.value) && Launches(plan, now, r.value)
      ensures r.Err? && r.error != RollbackIncomplete ==>
        && !Owned(alias, plan.runtime, plan.registration)
        && (Restored(old(Snapshot())) <==> !old(ApplyLeaks(Snapshot(), plan, w)))
        && (old(Unregistered(Snapshot(), plan)) ==>
              (registrations.Live(plan.registration) <==> w.registrationRoom && LeavesLive(w.registration)))
    {
      hide Leaks, SkillLeaks, SkillInstalls, SkillRemoves;
      var done, registered, skilled := Perform(plan, now, w);
      if done.Ok? { return done; }
      var clean := Rollback(plan, w.rollback, registered, skilled);
      r := if clean then done else Err(RollbackIncomplete);
    }

    ghost predicate Integrated(plan: Plan, now: nat, receipt: Receipt)
      reads this, registrations, states
    {
      && registrations.Live(plan.registration) && registrations.files[plan.registration] == Some(plan.request)
      && skill == Some(plan.skill) && Owned(alias, plan.runtime, plan.registration)
      && receipt == ReceiptOf(plan, now, alias.value.sha)
      && states.Live(ReceiptRef(plan.registration))
      && states.files[ReceiptRef(plan.registration)] == Some(ReceiptRecord(receipt))
    }

    /** The alias launches the plan's registration, which is in force, and the receipt says how it got there. */
    ghost predicate Launches(plan: Plan, now: nat, receipt: Receipt)
      reads this, registrations
    {
      && registrations.Live(plan.registration) && registrations.files[plan.registration] == Some(plan.request)
      && alias.Some? && alias.value.command == plan.runtime
      && alias.value.args == ["mcp", "launch", "--registration", plan.registration]
      && receipt.registration == plan.registration && receipt.schema == 1 && receipt.installed == now
      && receipt.binding == plan.binding && receipt.runtime == plan.runtime && receipt.skill == plan.skill
      && receipt.aliasSha == alias.value.sha
    }

    /** Stores and Skill are as they were before. */
    ghost predicate Restored(b: Before)
      reads this, registrations, states
    {
      && registrations.files == b.registrations && registrations.secrets == b.registrationSecrets
      && skill == None && !skillDirectory
      && states.files == b.states && states.secrets == b.stateSecrets
    }

    /** Stores a plan under a name never used before. */
    method StorePlan(plan: Plan, room: bool, f: InstallFaults) returns (ok: bool)
      requires Valid() && "plan_" <= plan.planRef && PREFIX <= plan.registration && plan.planRef !in applied
      modifies states
      ensures Valid()
      ensures ok <==>
        && plan.planRef !in old(states.files) && plan.planRef !in old(states.secrets) && room
        && f.put == Done && !WriteFails(f)
      ensures ok ==>
        && states.Live(plan.planRef)
        && states.files == old(states.files)[plan.planRef := Some(PlanRecord(plan))]
    {
      ok := states.Install(plan.planRef, PlanRecord(plan), room, f);
    }

    predicate HasReceipt(registration: string)
      reads this, states
    {
      && PREFIX <= registration && states.Live(ReceiptRef(registration))
      && states.files[ReceiptRef(registration)].value.ReceiptRecord?
      && ReceiptValid(states.files[ReceiptRef(registration)].value.receipt, registration, version, embedded)
    }

    predicate Recorded(registration: string)
      reads states
    {
      && "registration_" <= registration && states.Live("receipt_" + registration[13..])
      && states.files["receipt_" + registration[13..]].value.ReceiptRecord?
    }

    /** Nothing the receipt names was changed by somebody else. */
    predicate Untouched(receipt: Receipt, registration: string)
      reads this
    {
      && receipt.schema == 1 && receipt.registration == registration && SoundBinding(receipt.binding)
      && receipt.skill == embedded && Ours(receipt, registration)
    }

    /** Skill and alias, where present, are the ones the receipt names. */
    predicate Ours(receipt: Receipt, registration: string)
      reads this
    {
      (skill.Some? ==> skill.value == receipt.skill) && AliasOurs(receipt, registration)
    }

    predicate AliasOurs(receipt: Receipt, registration: string)
      reads this
    {
      alias.Some? ==>
        && alias.value.sha == receipt.aliasSha && alias.value.command == receipt.runtime
        && alias.value.args == ["mcp", "launch", "--registration", registration]
    }

    /** A receipt is on file, and what it names is either gone or still exactly what it recorded. */
    predicate Removable(registration: string)
      reads this, states
    {
      && HasReceipt(registration)
      && var receipt := states.files[ReceiptRef(registration)].value.receipt;
      && (alias.Some? ==> alias.value.sha == receipt.aliasSha && Owned(alias, receipt.runtime, registration))
      && (skill.Some? ==> skill == Some(receipt.skill))
    }

    /**
     Removes an integration by its receipt, revoking the registration first. Whatever fails later,
     a foreign alias or Skill is never touched, and the removal can be repeated until it succeeds.
     */
    method RemoveIntegration(registration: string, w: RemovalWorld) returns (r: Result<(), IntegrationError>)
      requires Valid()
      modifies this`alias, this`skillDirectory, this`skill, registrations, states
      ensures Valid()
      ensures r.Ok? ==>
        && old(Removable(registration))
        && registration !in registrations.files && registration !in registrations.secrets
        && alias == None && skill == None && !skillDirectory
        && ReceiptRef(registration) !in states.files && ReceiptRef(registration) !in states.secrets
      ensures r.Ok? ==>
        && old(Recorded(registration))
        && var receipt := old(states.files)["receipt_" + registration[13..]].value.receipt;
        && old(Untouched(receipt, registration)) && SameMachine(receipt, w.executables)
        && w.registration == w.receipt == RemoveFaults(Done, Done) && w.inspect == Done && w.read == Done
      ensures old(Recorded(registration)) && w.registration == RemoveFaults(Done, Done) && Smooth(w) ==>
        var receipt := old(states.files)["receipt_" + registration[13..]].value.receipt;
        r == if old(Untouched(receipt, registration)) && SameMachine(receipt, w.executables)
             then Ok(()) else Err(StateDrift)
      ensures
        || registrations.files == old(registrations.files)
        || registrations.files == old(registrations.files) - {registration}
      ensures !(alias == old(alias) && skill == old(skill) && skillDirectory == old(skillDirectory) &&
                states.files == old(states.files)) ==>
        && old(Removable(registration))
        && registration !in registrations.files && registration !in registrations.secrets
      ensures alias == old(alias) || alias == None
      ensures skill == old(skill) || skill == None
      ensures old(HasReceipt(registration)) && w.registration == NO_REMOVE_FAULTS ==>
        registration !in registrations.files && registration !in registrations.secrets
      ensures r.Err? ==> r.error == StateDrift || r.error == Failed
      ensures !("registration_" <= registration) ==> r == Err(StateDrift)
      ensures "registration_" <= registration && !old(Recorded(registration)) ==> r == Err(Failed)
      ensures w.registration != RemoveFaults(Done, Done) && old(HasReceipt(registration)) ==> r == Err(Failed)
      ensures old(Removable(registration)) && states.Live(ReceiptRef(registration)) ==> Removable(registration)
    {
      var name := ReceiptRef(registration);
      if !(PREFIX <= registration) { return Err(StateDrift); }
      if !states.Live(name) { return Err(Failed); }
      if !states.files[name].value.ReceiptRecord? { return Err(Failed); }
      var receipt := states.files[name].value.receipt;
      if !ReceiptValid(receipt, registration, version, embedded) { return Err(StateDrift); }
      var revoked := registrations.Remove(registration, w.registration);
      if !revoked { return Err(Failed); }
      r := Dismantle(receipt, registration, w);
    }

    /** What is left to remove once the registration is revoked, none of it unless all of it is ours. */
    method Dismantle(receipt: Receipt, registration: string, w: RemovalWorld) returns (r: Result<(), IntegrationError>)
      requires Valid() && PREFIX <= registration
      modifies this`alias, this`skillDirectory, this`skill, states
      ensures Valid()
      ensures r.Ok? ==>
        && old(Ours(receipt, registration)) && SameMachine(receipt, w.executables)
        && alias == None && skill == None && !skillDirectory
        && ReceiptRef(registration) !in states.files && ReceiptRef(registration) !in states.secrets
      ensures Smooth(w) ==>
        r == if old(Ours(receipt, registration)) && SameMachine(receipt, w.executables) then Ok(()) else Err(StateDrift)
      ensures
        || (alias == old(alias) && skill == old(skill) && skillDirectory == old(skillDirectory) &&
            states.files == old(states.files))
        || old(Ours(receipt, registration))
      ensures r.Ok? <==>
        && w.executables.readable && SameMachine(receipt, w.executables) && w.inspect == Done
        && old(Ours(receipt, registration)) && w.read == Done && (old(alias).Some? ==> w.alias == Done)
        && w.skill.read == Done && (old(skill).Some? ==> w.skill.file == Done)
        && (old(skillDirectory) ==> w.skill.directory == Done) && w.receipt == RemoveFaults(Done, Done)
      ensures w.alias == Refused ==> alias == old(alias)
      ensures r == Err(StateDrift) <==>
        && w.executables.readable
        && (!SameMachine(receipt, w.executables) ||
            (w.inspect == Done && !old(AliasOurs(receipt, registration))) ||
            (w.inspect == Done && w.read == Done && !old(Ours(receipt, registration))))
      ensures r.Err? ==> r.error == StateDrift || r.error == Failed
      ensures (alias == old(alias) || alias == None) && (skill == old(skill) || skill == None)
      ensures states.files == old(states.files) || states.files == old(states.files) - {ReceiptRef(registration)}
    {
      var name := ReceiptRef(registration);
      if !w.executables.readable { return Err(Failed); }
      if !SameHost(receipt.binding, w.executables) { return Err(StateDrift); }
      if w.inspect != Done { return Err(Failed); }
      if alias.Some? && (alias.value.sha != receipt.aliasSha || !Owned(alias, receipt.runtime, registration)) {
        return Err(StateDrift);
      }
      if w.read != Done { return Err(Failed); }
      if skill.Some? && skill.value != receipt.skill { return Err(StateDrift); }
      if alias.Some? {
        if Effective(w.alias) { alias := None; }
        if w.alias != Done { return Err(Failed); }
      }
      var unskilled := RemoveSkill(receipt.skill, w.skill);
      if !unskilled { return Err(Failed); }
      var cleared := states.Remove(name, w.receipt);
      r := if cleared then Ok(()) else Err(Failed);
    }
  }

  /** Nothing fails once the registration is revoked. */
  predicate Smooth(w: RemovalWorld) {
    && w.executables.readable && w.receipt == RemoveFaults(Done, Done)
    && w.inspect == Done && w.read == Done && w.alias == Done && w.skill == UnskillFaults(Done, Done, Done)
  }

  /** The host executable is the one the receipt was written for. */
  predicate SameMachine(receipt: Receipt, x: Executables) {
    x.host == receipt.binding.hostExecutable && x.hostIdentity == receipt.binding.hostIdentity
  }

  const NO_SKILL_FAULTS := SkillFaults(Done, true, Done, Done, Done, Done, true, Done, Done)

  /**
   The promise that a plain error leaves nothing behind is false: when the registration file cannot
   be flushed and neither file nor secret can be deleted again, an ordinary error is returned while a
   live registration stays in the store.
   */
  method FailedApplyLeavesLiveRegistration(plan: Plan) returns (m: Machine, r: Result<Receipt, IntegrationError>)
    requires "plan_" <= plan.planRef && PREFIX <= plan.registration
    requires PlanValid(plan, plan.planRef, plan.created, plan.binding.version, plan.skill)
    ensures r.Err? && r.error != RollbackIncomplete
    ensures fresh(m) && m.registrations.Live(plan.registration)
  {
    m := new Machine(plan.skill, plan.binding.version);
    var stored := m.StorePlan(plan, true, NO_INSTALL_FAULTS);
    var unflushed := InstallFaults(Done, Done, Done, Refused, Refused, Refused);
    var executables := Executables(
      true, plan.binding.hostExecutable, plan.binding.hostIdentity, plan.runtime, plan.binding.runtimeSha, true);
    var w := ApplyWorld(true, executables, Done, plan.precondition, NO_REMOVE_FAULTS, true, unflushed,
                        NO_SKILL_FAULTS, Done, Alias(plan.runtime, LaunchArgs(plan.registration), ""), Done, true,
                        NO_INSTALL_FAULTS,
                        RollbackFaults(NO_REMOVE_FAULTS, Done, Done, UnskillFaults(Done, Done, Done)));
    assert m.Ready(plan.planRef, plan.created, w);
    r := m.Apply(plan.planRef, plan.created, w);
  }
}
