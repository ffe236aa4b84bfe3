/** The compute fabric: the lifecycle of nodes, placement of jobs on nodes, and the audit
    log that every accepted operation extends. */
module ComputeFabric {
  import opened Options
  import opened CodeUnits

  datatype Enrollment = Pending | Enrolled | Quarantined | Revoked

  datatype Health = Ready | Degraded | Unavailable | Unknown

  datatype NodeKind = DesktopLocal | LanRemote | SshRemote | CloudVm | ContainerHost | ProviderManaged

  datatype TrustTier = LocalOwned | UserOwnedRemote | OrganizationOwned | EphemeralCloud | Untrusted

  /** A role, or a name that is no role. */
  datatype Role =
    | ShellRunner | SafeCommandRunner | ContainerRunner | CleanroomRunner | ArtifactStore | ModelHost
    | BrowserRunner | EvalRunner | ServiceHost | UnknownRole(name: string)

  datatype JobType =
    | PassiveProbe | ExecutableProbe | SafeCommand | ContainerJob | CleanroomContainerJob | ServiceStart
    | ServiceStop | ArtifactCollect | ModelEndpointProbe | BenchmarkEval | DelegatedAgentWorkspace
    | UnknownJobType(name: string)

  datatype NetworkMode = NoNetwork | LoopbackOnly | LanOnly | Allowlist | InternetApproved | UnknownMode(name: string)

  datatype WorkspaceMode = Ephemeral | PersistentPerProject | ReadOnlySource | WriteArtifactsOnly | Cleanroom

  datatype JobStatus = Queued | Approved | Running | Succeeded | Failed | Cancelled | Blocked

  predicate HighRisk(role: Role) {
    role.ShellRunner? || role.ContainerRunner? || role.CleanroomRunner? || role.BrowserRunner?
    || role.EvalRunner? || role.ServiceHost?
  }

  predicate ExecutableType(t: JobType) {
    !t.PassiveProbe? && !t.ArtifactCollect? && !t.UnknownJobType?
  }

  predicate ContainerType(t: JobType) {
    t.ContainerJob? || t.CleanroomContainerJob? || t.BenchmarkEval?
  }

  predicate ServiceType(t: JobType) {
    t.ServiceStart? || t.ServiceStop?
  }

  lemma JobTypesAre(t: JobType)
    ensures ExecutableType(t) <==>
            t in {ExecutableProbe, SafeCommand, ContainerJob, CleanroomContainerJob, ServiceStart, ServiceStop,
                  ModelEndpointProbe, BenchmarkEval, DelegatedAgentWorkspace}
    ensures ContainerType(t) <==> t in {ContainerJob, CleanroomContainerJob, BenchmarkEval}
    ensures ServiceType(t) <==> t in {ServiceStart, ServiceStop}
  {
  }

  datatype Probe = Probe(
    os: Option<string>, arch: Option<string>, ramGb: Option<int>,
    containerRuntimes: Option<seq<string>>, containerPlatforms: Option<seq<string>>)

  datatype Node = Node(
    id: Text, name: Text, kind: NodeKind, trustTier: TrustTier, enrollment: Enrollment,
    endpoint: Option<Text>, identityFingerprint: Option<Text>, supportedTransports: seq<string>,
    roles: seq<Role>, health: Health, lastVerifiedAt: Option<Text>, probe: Probe, notes: seq<Text>)

  /** Absent lists are empty and an absent memory bound is 0, as the checks treat them. */
  datatype Constraints = Constraints(
    os: seq<string>, arch: seq<string>, containerRuntime: seq<string>, containerPlatform: seq<string>,
    minRamGb: int, networkModes: seq<NetworkMode>)

  /** The fields of a job that the policy reads.  `carriesSecret` says whether the secret patterns
      match anywhere in the job. */
  datatype Job = Job(
    id: Text, consumerId: Text, jobType: JobType, requiredNodeRoles: seq<Role>, constraints: Constraints,
    targetNodeId: Option<Text>,
    networkMode: NetworkMode, networkReason: Text, allowlist: seq<string>,
    approvalRequired: bool, approved: bool, hasCommand: bool, hasContainer: bool,
    allowRawSecrets: bool, carriesSecret: bool, exposesSecrets: bool, approvedSecretRefs: seq<string>,
    workspaceMode: WorkspaceMode, retainsWorkspace: bool, reviewsArtifacts: bool,
    maxFileBytes: int, maxTotalBytes: int, maxFileCount: int,
    executionTimeoutSeconds: int, cancellationGraceSeconds: int, status: JobStatus)

  datatype Audit = Audit(id: Text, jobId: Text, nodeId: Option<Text>, createdAt: Text, event: Text)

  datatype Fabric = Fabric(nodes: seq<Node>, jobs: seq<Job>, audit: seq<Audit>)

  // ----- issues -----

  datatype Code =
    | MissingNodeId | MissingNodeLabel | UnknownNodeRole | EnrolledWithoutFingerprint
    | EnrolledWithoutTransport | UntrustedEnrolled | ShellWithoutSafeCommand | MissingJobId | UnknownType
    | MissingNodeRole | TargetNotFound | UnknownRequiredRole | UnknownNetworkMode | MissingNetworkReason
    | EmptyAllowlist | InternetWithoutApproval | PassiveProbeExecutes | PassiveProbeNetwork
    | TargetNotEnrolled | TargetUnavailable | TargetMissingRole | TargetConstraintsMismatch | NoEnrolledNode
    | AddonDirectSelection | ContainerWithoutRole | CleanroomWithoutRole | CleanroomUnsafeNetwork
    | ServiceWithoutRole | SecretMaterial | SecretWithoutApproval | CleanroomInternet | ReviewWithCleanup
    | InvalidArtifactLimits | InvalidTimeouts

  datatype Issue = Issue(isError: bool, code: Code)

  predicate HasErrors(issues: seq<Issue>) {
    exists i <- issues :: i.isError
  }

  /** Push an issue when a check fails. */
  method Check(issues: seq<Issue>, fails: bool, isError: bool, code: Code) returns (pushed: seq<Issue>)
    ensures forall i: Issue :: i in pushed <==> i in issues || (fails && i == Issue(isError, code))
    ensures HasErrors(pushed) <==> HasErrors(issues) || (fails && isError)
  {
    pushed := issues;
    if fails {
      pushed := pushed + [Issue(isError, code)];
      assert pushed[|issues|] in pushed;
      assert forall i <- issues :: i in pushed;
    }
  }

  /** Push an error when a check fails. */
  method Require(issues: seq<Issue>, fails: bool, code: Code) returns (pushed: seq<Issue>)
    ensures HasErrors(pushed) <==> HasErrors(issues) || fails
  {
    pushed := Check(issues, fails, true, code);
  }

  predicate AllIn<T(==)>(values: seq<T>, allowed: seq<T>) {
    forall v <- values :: v in allowed
  }

  predicate KnownRoles(roles: seq<Role>) {
    forall r <- roles :: !r.UnknownRole?
  }

  // ----- nodes -----

  /** A node without validation errors. */
  predicate NodeValid(node: Node) {
    && !Blank(node.id) && !Blank(node.name)
    && KnownRoles(node.roles)
    && (node.enrollment.Enrolled? ==>
          && node.identityFingerprint.Some? && !Blank(node.identityFingerprint.value)
          && (!node.kind.DesktopLocal? ==> node.supportedTransports != [])
          && !node.trustTier.Untrusted?)
  }

  /** The rule that a node breaks, by the code of its error. */
  ghost predicate NodeFault(node: Node, code: Code) {
    match code
    case MissingNodeId => Blank(node.id)
    case MissingNodeLabel => Blank(node.name)
    case UnknownNodeRole => exists role <- node.roles :: role.UnknownRole?
    case EnrolledWithoutFingerprint =>
      node.enrollment == Enrolled && (node.identityFingerprint == None || Blank(node.identityFingerprint.value))
    case EnrolledWithoutTransport =>
      node.enrollment == Enrolled && node.kind != DesktopLocal && node.supportedTransports == []
    case UntrustedEnrolled => node.enrollment == Enrolled && node.trustTier == Untrusted
    case _ => false
  }

  /** A node is valid exactly when it breaks no rule. */
  lemma NodeValidExactly(node: Node)
    ensures NodeValid(node) <==> forall code :: !NodeFault(node, code)
  {
    hide Blank;
    if forall code :: !NodeFault(node, code) {
      assert !NodeFault(node, MissingNodeId) && !NodeFault(node, MissingNodeLabel) && !NodeFault(node, UnknownNodeRole);
      assert !NodeFault(node, EnrolledWithoutFingerprint) && !NodeFault(node, EnrolledWithoutTransport);
      assert !NodeFault(node, UntrustedEnrolled);
    }
  }

  method ValidateComputeNode(node: Node) returns (valid: bool, issues: seq<Issue>)
    ensures valid == NodeValid(node) == !HasErrors(issues)
    ensures Issue(false, ShellWithoutSafeCommand) in issues <==>
            ShellRunner in node.roles && SafeCommandRunner !in node.roles
  {
    var enrolled := node.enrollment.Enrolled?;
    hide Blank;
    issues := [];
    assert !HasErrors(issues);
    issues := Check(issues, Blank(node.id), true, MissingNodeId);
    issues := Check(issues, Blank(node.name), true, MissingNodeLabel);
    issues := Check(issues, !KnownRoles(node.roles), true, UnknownNodeRole);
    issues := Check(issues, enrolled && (node.identityFingerprint.None? || Blank(node.identityFingerprint.value)), true,
                    EnrolledWithoutFingerprint);
    issues := Check(issues, !node.kind.DesktopLocal? && enrolled && node.supportedTransports == [], true,
                    EnrolledWithoutTransport);
    issues := Check(issues, node.trustTier.Untrusted? && enrolled, true, UntrustedEnrolled);
    issues := Check(issues, ShellRunner in node.roles && SafeCommandRunner !in node.roles, false,
                    ShellWithoutSafeCommand);
    hide HasErrors;
    hide KnownRoles;
    valid := !HasErrors(issues);
  }

  function Lookup(nodes: seq<Node>, id: Text): Option<Node> {
    if nodes == [] then None else if nodes[0].id == id then Some(nodes[0]) else Lookup(nodes[1..], id)
  }

  /** The node an id finds: the first one of that id. */
  ghost predicate FoundAt(nodes: seq<Node>, id: Text, k: nat) {
    k < |nodes| && nodes[k].id == id && forall j: nat | j < k :: nodes[j].id != id
  }

  lemma {:induction false} LookupIsFirst(nodes: seq<Node>, id: Text) returns (k: nat)
    ensures k <= |nodes| && forall j: nat | j < k :: nodes[j].id != id
    ensures if k == |nodes| then Lookup(nodes, id).None?
            else FoundAt(nodes, id, k) && Lookup(nodes, id) == Some(nodes[k])
    decreases |nodes|
  {
    k := 0;
    if nodes != [] && nodes[0].id != id {
      k := LookupIsFirst(nodes[1..], id);
      assert forall j: nat | 0 < j < k + 1 :: nodes[j] == nodes[1..][j - 1];
      k := k + 1;
    }
  }

  // ----- placement -----

  predicate Includes(available: Option<seq<string>>, wanted: seq<string>) {
    wanted != [] ==> available.Some? && AllIn(wanted, available.value)
  }

  predicate OneOf(value: Option<string>, wanted: seq<string>) {
    wanted != [] ==> value.Some? && value.value != "" && value.value in wanted
  }

  /** The node meets enrolment, health, roles and every constraint of the job. */
  predicate Satisfies(node: Node, job: Job) {
    && node.enrollment.Enrolled? && !node.health.Unavailable?
    && AllIn(job.requiredNodeRoles, node.roles)
    && OneOf(node.probe.os, job.constraints.os)
    && OneOf(node.probe.arch, job.constraints.arch)
    && Includes(node.probe.containerRuntimes, job.constraints.containerRuntime)
    && Includes(node.probe.containerPlatforms, job.constraints.containerPlatform)
    && (job.constraints.minRamGb != 0 ==>
          job.constraints.minRamGb <= if node.probe.ramGb.Some? then node.probe.ramGb.value else 0)
    && (job.constraints.networkModes != [] ==> job.networkMode in job.constraints.networkModes)
  }

  datatype Reason =
    | NotEnrolled | NodeUnavailable | MissingRoles | OsMismatch | ArchMismatch | RuntimeMismatch
    | PlatformMismatch | MemoryMismatch | NetworkMismatch

  /** Why a node does not suit a job, constraint by constraint. */
  ghost predicate Mismatches(node: Node, job: Job, reason: Reason) {
    var wanted, probe := job.constraints, node.probe;
    match reason
    case NotEnrolled => node.enrollment != Enrolled
    case NodeUnavailable => node.health == Unavailable
    case MissingRoles => exists role <- job.requiredNodeRoles :: role !in node.roles
    case OsMismatch => wanted.os != [] && probe.os !in (set os <- wanted.os | os != "" :: Some(os))
    case ArchMismatch => wanted.arch != [] && probe.arch !in (set arch <- wanted.arch | arch != "" :: Some(arch))
    case RuntimeMismatch => exists runtime <- wanted.containerRuntime :: !Offered(probe.containerRuntimes, runtime)
    case PlatformMismatch => exists platform <- wanted.containerPlatform :: !Offered(probe.containerPlatforms, platform)
    case MemoryMismatch =>
      wanted.minRamGb != 0 && wanted.minRamGb > (if probe.ramGb.Some? then probe.ramGb.value else 0)
    case NetworkMismatch => wanted.networkModes != [] && job.networkMode !in wanted.networkModes
  }

  ghost predicate Offered(available: Option<seq<string>>, wanted: string) {
    available.Some? && wanted in available.value
  }

  /** A node satisfies a job exactly when nothing mismatches. */
  lemma SatisfiesExactly(node: Node, job: Job)
    ensures Satisfies(node, job) <==> forall reason :: !Mismatches(node, job, reason)
  {
    if forall reason :: !Mismatches(node, job, reason) {
      NoMismatch(node, job);
    }
  }

  lemma NoMismatch(node: Node, job: Job)
    requires forall reason :: !Mismatches(node, job, reason)
    ensures Satisfies(node, job)
  {
    assert !Mismatches(node, job, NotEnrolled) && !Mismatches(node, job, NodeUnavailable);
    assert !Mismatches(node, job, MissingRoles) && !Mismatches(node, job, OsMismatch);
    assert !Mismatches(node, job, ArchMismatch) && !Mismatches(node, job, RuntimeMismatch);
    assert !Mismatches(node, job, PlatformMismatch) && !Mismatches(node, job, MemoryMismatch);
    assert !Mismatches(node, job, NetworkMismatch);
    if job.constraints.containerRuntime != [] {
      assert job.constraints.containerRuntime[0] in job.constraints.containerRuntime;
    }
    if job.constraints.containerPlatform != [] {
      assert job.constraints.containerPlatform[0] in job.constraints.containerPlatform;
    }
  }

  method EvaluateComputeNode(node: Node, job: Job) returns (suits: bool, reasons: seq<Reason>)
    ensures suits == Satisfies(node, job) == (reasons == [])
  {
    reasons := [];
    hide AllIn;
    if !node.enrollment.Enrolled? { reasons := reasons + [NotEnrolled]; }
    if node.health.Unavailable? { reasons := reasons + [NodeUnavailable]; }
    if !AllIn(job.requiredNodeRoles, node.roles) { reasons := reasons + [MissingRoles]; }
    if job.constraints.os != []
       && (node.probe.os.None? || node.probe.os.value == "" || node.probe.os.value !in job.constraints.os)
    {
      reasons := reasons + [OsMismatch];
    }
    if job.constraints.arch != []
       && (node.probe.arch.None? || node.probe.arch.value == "" || node.probe.arch.value !in job.constraints.arch)
    {
      reasons := reasons + [ArchMismatch];
    }
    if job.constraints.containerRuntime != [] {
      var runtimes := if node.probe.containerRuntimes.Some? then node.probe.containerRuntimes.value else [];
      NoneAvailable(node.probe.containerRuntimes, job.constraints.containerRuntime);
      if !AllIn(job.constraints.containerRuntime, runtimes) { reasons := reasons + [RuntimeMismatch]; }
    }
    if job.constraints.containerPlatform != [] {
      var platforms := if node.probe.containerPlatforms.Some? then node.probe.containerPlatforms.value else [];
      NoneAvailable(node.probe.containerPlatforms, job.constraints.containerPlatform);
      if !AllIn(job.constraints.containerPlatform, platforms) { reasons := reasons + [PlatformMismatch]; }
    }
    var ram := if node.probe.ramGb.Some? then node.probe.ramGb.value else 0;
    if job.constraints.minRamGb != 0 && ram < job.constraints.minRamGb { reasons := reasons + [MemoryMismatch]; }
    if job.constraints.networkModes != [] && job.networkMode !in job.constraints.networkModes {
      reasons := reasons + [NetworkMismatch];
    }
    suits := reasons == [];
  }

  lemma NoneAvailable(available: Option<seq<string>>, wanted: seq<string>)
    requires wanted != []
    ensures Includes(available, wanted) <==> AllIn(wanted, if available.Some? then available.value else [])
  {
    assert wanted[0] in wanted;
  }

  /** The first node that satisfies the job. */
  function SelectNode(nodes: seq<Node>, job: Job): Option<Node> {
    if nodes == [] then None else if Satisfies(nodes[0], job) then Some(nodes[0]) else SelectNode(nodes[1..], job)
  }

  /** Node k is the first that satisfies the job. */
  predicate FirstFit(nodes: seq<Node>, job: Job, k: nat) {
    k < |nodes| && Satisfies(nodes[k], job) && forall j: nat | j < k :: !Satisfies(nodes[j], job)
  }

  lemma {:induction false} SelectNodeIsFirstFit(nodes: seq<Node>, job: Job)
    ensures SelectNode(nodes, job).Some? ==>
              exists k: nat :: FirstFit(nodes, job, k) && SelectNode(nodes, job).value == nodes[k]
    ensures SelectNode(nodes, job).None? ==> forall j: nat | j < |nodes| :: !Satisfies(nodes[j], job)
    decreases |nodes|
  {
    hide Satisfies;
    if nodes != [] {
      SelectNodeIsFirstFit(nodes[1..], job);
      if Satisfies(nodes[0], job) {
        assert FirstFit(nodes, job, 0);
      } else if SelectNode(nodes[1..], job).Some? {
        var k: nat :| FirstFit(nodes[1..], job, k) && SelectNode(nodes[1..], job).value == nodes[1..][k];
        assert nodes[1..][k] == nodes[k + 1];
        forall j: nat | j < k + 1 ensures !Satisfies(nodes[j], job) {
          if j > 0 { assert nodes[j] == nodes[1..][j - 1]; }
        }
        assert FirstFit(nodes, job, k + 1);
      } else {
        forall j: nat | j < |nodes| ensures !Satisfies(nodes[j], job) {
          if j > 0 { assert nodes[j] == nodes[1..][j - 1]; }
        }
      }
    }
  }

  // ----- jobs -----

  predicate Executable(job: Job) {
    ExecutableType(job.jobType)
  }

  /** The registered node a job names; an empty name names none. */
  function TargetOf(nodes: seq<Node>, job: Job): Option<Node> {
    if job.targetNodeId.Some? && job.targetNodeId.value != [] then Lookup(nodes, job.targetNodeId.value) else None
  }

  const ADDON_PREFIX: Text := Literal("addon.")

  /** What a job declares about itself and its network is well formed. */
  predicate DeclarationAcceptable(job: Job) {
    && !Blank(job.id) && !job.jobType.UnknownJobType?
    && job.requiredNodeRoles != [] && KnownRoles(job.requiredNodeRoles)
    && !job.networkMode.UnknownMode? && !Blank(job.networkReason)
    && (job.networkMode.Allowlist? ==> job.allowlist != [])
    && (job.networkMode.InternetApproved? ==> job.approvalRequired || job.approved)
    && (job.jobType.PassiveProbe? ==> !job.hasCommand && !job.hasContainer && job.networkMode.NoNetwork?)
  }

  predicate Names(job: Job) {
    job.targetNodeId.Some? && job.targetNodeId.value != []
  }

  /** A named target is registered, named by a consumer that may, and suits the job; without a named
      target some node suits an executable job. */
  predicate PlacementAcceptable(nodes: seq<Node>, job: Job, allowDirect: bool) {
    var target := TargetOf(nodes, job);
    && (Names(job) ==> target.Some?)
    && (Names(job) && ADDON_PREFIX <= job.consumerId ==> allowDirect)
    && (Executable(job) ==> if target.Some? then Satisfies(target.value, job) else SelectNode(nodes, job).Some?)
  }

  lemma PlacementExactly(nodes: seq<Node>, job: Job, allowDirect: bool)
    ensures PlacementAcceptable(nodes, job, allowDirect) <==>
            if job.targetNodeId in {None, Some([])} then
              Executable(job) ==> exists k: nat :: k < |nodes| && Satisfies(nodes[k], job)
            else
              && (Literal("addon.") <= job.consumerId ==> allowDirect)
              && exists k: nat :: FoundAt(nodes, job.targetNodeId.value, k) &&
                                  (Executable(job) ==> Satisfies(nodes[k], job))
  {
    SelectNodeIsFirstFit(nodes, job);
    hide Satisfies, SelectNode, Executable, Literal;
    if job.targetNodeId !in {None, Some([])} {
      var k := LookupIsFirst(nodes, job.targetNodeId.value);
      assert forall j: nat | FoundAt(nodes, job.targetNodeId.value, j) :: j == k;
    }
    hide Lookup;
  }

  /** Roles required by the kind of job, secrets, and limits. */
  predicate LimitsAcceptable(job: Job) {
    && (ContainerType(job.jobType) ==> ContainerRunner in job.requiredNodeRoles)
    && (job.jobType.CleanroomContainerJob? ==>
          CleanroomRunner in job.requiredNodeRoles && (job.networkMode.NoNetwork? || job.networkMode.Allowlist?))
    && (ServiceType(job.jobType) ==> ServiceHost in job.requiredNodeRoles)
    && (job.carriesSecret ==> job.allowRawSecrets)
    && (job.exposesSecrets ==> job.allowRawSecrets || job.approvedSecretRefs != [])
    && !(job.workspaceMode.Cleanroom? && job.networkMode.InternetApproved?)
    && 0 < job.maxFileBytes && 0 < job.maxTotalBytes && 0 < job.maxFileCount
    && 0 < job.executionTimeoutSeconds && 0 < job.cancellationGraceSeconds
  }

  /** The rule that a declaration breaks, by the code of its error. */
  ghost predicate DeclarationFault(job: Job, code: Code) {
    match code
    case MissingJobId => Blank(job.id)
    case UnknownType => job.jobType.UnknownJobType?
    case MissingNodeRole => job.requiredNodeRoles == []
    case UnknownRequiredRole => exists role <- job.requiredNodeRoles :: role.UnknownRole?
    case UnknownNetworkMode => job.networkMode.UnknownMode?
    case MissingNetworkReason => Blank(job.networkReason)
    case EmptyAllowlist => job.networkMode == Allowlist && job.allowlist == []
    case InternetWithoutApproval => job.networkMode == InternetApproved && !(job.approvalRequired || job.approved)
    case PassiveProbeExecutes => job.jobType == PassiveProbe && (job.hasCommand || job.hasContainer)
    case PassiveProbeNetwork => job.jobType == PassiveProbe && job.networkMode != NoNetwork
    case _ => false
  }

  /** A declaration is acceptable exactly when it breaks no rule. */
  lemma DeclarationExactly(job: Job)
    ensures DeclarationAcceptable(job) <==> forall code :: !DeclarationFault(job, code)
  {
    hide Blank;
    if forall code :: !DeclarationFault(job, code) {
      assert !DeclarationFault(job, MissingJobId) && !DeclarationFault(job, UnknownType);
      assert !DeclarationFault(job, MissingNodeRole) && !DeclarationFault(job, UnknownRequiredRole);
      assert !DeclarationFault(job, UnknownNetworkMode) && !DeclarationFault(job, MissingNetworkReason);
      assert !DeclarationFault(job, EmptyAllowlist) && !DeclarationFault(job, InternetWithoutApproval);
      assert !DeclarationFault(job, PassiveProbeExecutes) && !DeclarationFault(job, PassiveProbeNetwork);
    }
  }

  /** The role, secret or limit rule that a job breaks, by the code of its error. */
  ghost predicate LimitsFault(job: Job, code: Code) {
    match code
    case ContainerWithoutRole =>
      job.jobType in {ContainerJob, CleanroomContainerJob, BenchmarkEval} && ContainerRunner !in job.requiredNodeRoles
    case CleanroomWithoutRole => job.jobType == CleanroomContainerJob && CleanroomRunner !in job.requiredNodeRoles
    case CleanroomUnsafeNetwork =>
      job.jobType == CleanroomContainerJob && job.networkMode !in {NoNetwork, Allowlist}
    case ServiceWithoutRole => job.jobType in {ServiceStart, ServiceStop} && ServiceHost !in job.requiredNodeRoles
    case SecretMaterial => job.carriesSecret && !job.allowRawSecrets
    case SecretWithoutApproval => job.exposesSecrets && !job.allowRawSecrets && job.approvedSecretRefs == []
    case CleanroomInternet => job.workspaceMode == Cleanroom && job.networkMode == InternetApproved
    case InvalidArtifactLimits => job.maxFileBytes <= 0 || job.maxTotalBytes <= 0 || job.maxFileCount <= 0
    case InvalidTimeouts => job.executionTimeoutSeconds <= 0 || job.cancellationGraceSeconds <= 0
    case _ => false
  }

  /** Limits are acceptable exactly when none is broken. */
  lemma LimitsExactly(job: Job)
    ensures LimitsAcceptable(job) <==> forall code :: !LimitsFault(job, code)
  {
    JobTypesAre(job.jobType);
    if forall code :: !LimitsFault(job, code) {
      assert !LimitsFault(job, ContainerWithoutRole) && !LimitsFault(job, CleanroomWithoutRole);
      assert !LimitsFault(job, CleanroomUnsafeNetwork) && !LimitsFault(job, ServiceWithoutRole);
      assert !LimitsFault(job, SecretMaterial) && !LimitsFault(job, SecretWithoutApproval);
      assert !LimitsFault(job, CleanroomInternet) && !LimitsFault(job, InvalidArtifactLimits);
      assert !LimitsFault(job, InvalidTimeouts);
    }
  }

  /** A job without validation errors in a fabric with these nodes. */
  predicate JobAcceptable(nodes: seq<Node>, job: Job, allowDirect: bool) {
    DeclarationAcceptable(job) && PlacementAcceptable(nodes, job, allowDirect) && LimitsAcceptable(job)
  }

  method ValidateComputeJob(job: Job, nodes: seq<Node>, allowDirect: bool) returns (valid: bool, issues: seq<Issue>)
    ensures valid == JobAcceptable(nodes, job, allowDirect) == !HasErrors(issues)
  {
    issues := CheckDeclaration(job, Names(job) && TargetOf(nodes, job).None?);
    issues := CheckPlacement(issues, job, nodes, allowDirect);
    issues := CheckLimits(issues, job);
    hide HasErrors;
    hide DeclarationAcceptable;
    hide LimitsAcceptable;
    valid := !HasErrors(issues);
  }

  method CheckDeclaration(job: Job, unregistered: bool) returns (issues: seq<Issue>)
    ensures HasErrors(issues) <==> unregistered || !DeclarationAcceptable(job)
  {
    issues := [];
    assert !HasErrors(issues);
    hide HasErrors;
    hide Blank;
    hide KnownRoles;
    issues := Require(issues, Blank(job.id), MissingJobId);
    issues := Require(issues, job.jobType.UnknownJobType?, UnknownType);
    issues := Require(issues, job.requiredNodeRoles == [], MissingNodeRole);
    issues := Require(issues, unregistered, TargetNotFound);
    issues := Require(issues, !KnownRoles(job.requiredNodeRoles), UnknownRequiredRole);
    issues := Require(issues, job.networkMode.UnknownMode?, UnknownNetworkMode);
    issues := Require(issues, Blank(job.networkReason), MissingNetworkReason);
    issues := Require(issues, job.networkMode.Allowlist? && job.allowlist == [], EmptyAllowlist);
    issues := Require(issues, job.networkMode.InternetApproved? && !job.approvalRequired && !job.approved,
                    InternetWithoutApproval);
    if job.jobType.PassiveProbe? {
      issues := Require(issues, job.hasCommand || job.hasContainer, PassiveProbeExecutes);
      issues := Require(issues, !job.networkMode.NoNetwork?, PassiveProbeNetwork);
    }
  }

  method CheckPlacement(before: seq<Issue>, job: Job, nodes: seq<Node>, allowDirect: bool) returns (issues: seq<Issue>)
    requires Names(job) && TargetOf(nodes, job).None? ==> HasErrors(before)
    ensures HasErrors(issues) <==> HasErrors(before) || !PlacementAcceptable(nodes, job, allowDirect)
  {
    var target := TargetOf(nodes, job);
    var selected := if target.Some? then None else SelectNode(nodes, job);
    issues := before;
    hide HasErrors;
    hide SelectNode;
    hide Lookup;
    hide Literal;
    if Executable(job) {
      if target.Some? {
        SatisfiesBasics(target.value, job);
        hide Satisfies;
        issues := Require(issues, !target.value.enrollment.Enrolled?, TargetNotEnrolled);
        issues := Require(issues, target.value.health.Unavailable?, TargetUnavailable);
        issues := Require(issues, !AllIn(job.requiredNodeRoles, target.value.roles), TargetMissingRole);
        var suits, _ := EvaluateComputeNode(target.value, job);
        issues := Require(issues, !suits, TargetConstraintsMismatch);
      }
      issues := Require(issues, target.None? && selected.None?, NoEnrolledNode);
    }
    issues := Require(issues, Names(job) && ADDON_PREFIX <= job.consumerId && !allowDirect, AddonDirectSelection);
  }

  lemma SatisfiesBasics(node: Node, job: Job)
    ensures Satisfies(node, job) ==>
              node.enrollment.Enrolled? && !node.health.Unavailable? && AllIn(job.requiredNodeRoles, node.roles)
  {
  }

  method CheckLimits(before: seq<Issue>, job: Job) returns (issues: seq<Issue>)
    ensures HasErrors(issues) <==> HasErrors(before) || !LimitsAcceptable(job)
  {
    issues := before;
    hide HasErrors;
    issues := Require(
      issues, ContainerType(job.jobType) && ContainerRunner !in job.requiredNodeRoles, ContainerWithoutRole);
    issues := Require(issues, job.jobType.CleanroomContainerJob? && CleanroomRunner !in job.requiredNodeRoles,
                    CleanroomWithoutRole);
    issues := Require(issues,
                      job.jobType.CleanroomContainerJob? && !job.networkMode.NoNetwork? && !job.networkMode.Allowlist?,
                      CleanroomUnsafeNetwork);
    issues := Require(issues, ServiceType(job.jobType) && ServiceHost !in job.requiredNodeRoles, ServiceWithoutRole);
    issues := Require(issues, !job.allowRawSecrets && job.carriesSecret, SecretMaterial);
    issues := Require(issues, job.exposesSecrets && !job.allowRawSecrets && job.approvedSecretRefs == [],
                    SecretWithoutApproval);
    issues := Require(issues, job.workspaceMode.Cleanroom? && job.networkMode.InternetApproved?, CleanroomInternet);
    issues := Check(issues, !job.retainsWorkspace && job.reviewsArtifacts, false, ReviewWithCleanup);
    issues := Require(issues, job.maxFileBytes <= 0 || job.maxTotalBytes <= 0 || job.maxFileCount <= 0,
                    InvalidArtifactLimits);
    issues := Require(issues, job.executionTimeoutSeconds <= 0 || job.cancellationGraceSeconds <= 0, InvalidTimeouts);
  }
}
