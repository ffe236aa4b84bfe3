/** Operations on the compute fabric and what every run of them keeps: who may be enrolled,
    that revocation is final, where jobs are placed, and that audit records are distinct. */
module FabricRuns {
  import opened Options
  import opened CodeUnits
  import opened ComputeFabric

  datatype EnrollInput = EnrollInput(
    actor: Text, identityFingerprint: Text, endpoint: Option<Text>, supportedTransports: Option<seq<string>>,
    roles: Option<seq<Role>>, health: Option<Health>, probe: Option<Probe>, notes: seq<Text>,
    executableProbePassed: bool, createdAt: Option<Text>)

  /** `now` is the clock reading used when no creation time is given. */
  datatype Operation =
    | Enroll(nodeId: Text, input: EnrollInput, now: Text)
    | Quarantine(nodeId: Text, actor: Text, reason: Text, createdAt: Text)
    | Revoke(nodeId: Text, actor: Text, reason: Text, createdAt: Text)
    | Submit(job: Job, allowDirect: bool, createdAt: Text)

  /** The next fabric, and the audit record of an accepted operation. */
  datatype Result = Result(fabric: Fabric, record: Option<Audit>)

  const AUDIT_STEM: Text := Literal("compute-audit-")
  const ENROLLED_EVENT: Text := Literal("enrolled")
  const QUARANTINED_EVENT: Text := Literal("quarantined")
  const REVOKED_EVENT: Text := Literal("revoked")
  const SUBMITTED_EVENT: Text := Literal("submitted")
  const NODE_JOB_STEM: Text := Literal("compute-node-")

  function Replace(nodes: seq<Node>, node: Node): seq<Node> {
    seq(|nodes|, i requires 0 <= i < |nodes| => if nodes[i].id == node.id then node else nodes[i])
  }

  function NodeRecord(f: Fabric, node: Node, event: Text, createdAt: Text): Audit {
    Audit(
      AUDIT_STEM + node.id + [DASH] + event + [DASH] + Decimal(|f.audit| + 1),
      NODE_JOB_STEM + node.id, Some(node.id), createdAt, event)
  }

  function WithNode(f: Fabric, node: Node, event: Text, createdAt: Text): Result {
    var record := NodeRecord(f, node, event, createdAt);
    Result(f.(nodes := Replace(f.nodes, node), audit := f.audit + [record]), Some(record))
  }

  function MergeProbe(current: Probe, input: Option<Probe>): Probe {
    match input
    case None => current
    case Some(p) =>
      Probe(Coalesce(p.os, current.os), Coalesce(p.arch, current.arch), Coalesce(p.ramGb, current.ramGb),
            Coalesce(p.containerRuntimes, current.containerRuntimes),
            Coalesce(p.containerPlatforms, current.containerPlatforms))
  }

  function EnrolledNode(current: Node, input: EnrollInput): Node {
    current.(
      enrollment := Enrolled,
      endpoint := Coalesce(input.endpoint, current.endpoint),
      identityFingerprint := Some(input.identityFingerprint),
      supportedTransports :=
        if input.supportedTransports.Some? then input.supportedTransports.value else current.supportedTransports,
      roles := if input.roles.Some? then input.roles.value else current.roles,
      health := if input.health.Some? then input.health.value else Unknown,
      lastVerifiedAt := input.createdAt,
      probe := MergeProbe(current.probe, input.probe),
      notes := input.notes + current.notes)
  }

  /** The enrolment checks before the enrolled node itself is validated. */
  predicate MayEnroll(current: Node, input: EnrollInput) {
    && !Blank(input.actor) && !Blank(input.identityFingerprint)
    && !current.enrollment.Revoked? && !current.trustTier.Untrusted?
    && (input.executableProbePassed ||
        forall r <- (if input.roles.Some? then input.roles.value else current.roles) :: !HighRisk(r))
  }

  function EnrollNode(f: Fabric, nodeId: Text, input: EnrollInput, now: Text): Result {
    var current := Lookup(f.nodes, nodeId);
    if current.None? || !MayEnroll(current.value, input) then Result(f, None)
    else
      var next := EnrolledNode(current.value, input);
      if !NodeValid(next) then Result(f, None)
      else WithNode(f, next, ENROLLED_EVENT, if input.createdAt.Some? then input.createdAt.value else now)
  }

  function TransitionedNode(current: Node, revoke: bool, reason: Text, createdAt: Text): Node {
    current.(
      enrollment := if revoke then Revoked else Quarantined,
      health := if revoke then Unavailable else Unknown,
      lastVerifiedAt := Some(createdAt),
      notes := [(if revoke then REVOKED_EVENT else QUARANTINED_EVENT) + [COLON, SPACE] + reason] + current.notes)
  }

  function TransitionNode(f: Fabric, nodeId: Text, revoke: bool, actor: Text, reason: Text, createdAt: Text): Result {
    var current := Lookup(f.nodes, nodeId);
    if current.None? || Blank(actor) || Blank(reason) || (current.value.enrollment.Revoked? && !revoke)
    then Result(f, None)
    else
      var next := TransitionedNode(current.value, revoke, reason, createdAt);
      if !NodeValid(next) then Result(f, None)
      else WithNode(f, next, if revoke then REVOKED_EVENT else QUARANTINED_EVENT, createdAt)
  }

  function OtherJobs(jobs: seq<Job>, id: Text): seq<Job> {
    if jobs == [] then []
    else OtherJobs(jobs[..|jobs| - 1], id) + if jobs[|jobs| - 1].id != id then [jobs[|jobs| - 1]] else []
  }

  /** The job as it is recorded: with the selected node when none was named. */
  function SubmittedJob(nodes: seq<Node>, job: Job): Job {
    var selected := SelectNode(nodes, job);
    job.(
      targetNodeId := if job.targetNodeId.Some? then job.targetNodeId
                      else if selected.Some? then Some(selected.value.id) else None,
      status := if job.status.Blocked? || job.status.Failed? || job.status.Cancelled? then Queued else job.status)
  }

  function SubmitJob(f: Fabric, job: Job, allowDirect: bool, createdAt: Text): Result {
    if !JobAcceptable(f.nodes, job, allowDirect) then Result(f, None)
    else
      var submitted := SubmittedJob(f.nodes, job);
      var record := Audit(
        AUDIT_STEM + submitted.id + [DASH] + Decimal(|f.audit| + 1),
        submitted.id, submitted.targetNodeId, createdAt, SUBMITTED_EVENT);
      Result(f.(jobs := OtherJobs(f.jobs, submitted.id) + [submitted], audit := f.audit + [record]), Some(record))
  }

  function Exec(f: Fabric, op: Operation): Result {
    match op
    case Enroll(nodeId, input, now) => EnrollNode(f, nodeId, input, now)
    case Quarantine(nodeId, actor, reason, createdAt) => TransitionNode(f, nodeId, false, actor, reason, createdAt)
    case Revoke(nodeId, actor, reason, createdAt) => TransitionNode(f, nodeId, true, actor, reason, createdAt)
    case Submit(job, allowDirect, createdAt) => SubmitJob(f, job, allowDirect, createdAt)
  }

  function Run(f: Fabric, ops: seq<Operation>): Fabric
    decreases |ops|
  {
    if ops == [] then f else Run(Exec(f, ops[0]).fabric, ops[1..])
  }

  // ----- single operations -----

  lemma LookupFinds(nodes: seq<Node>, id: Text)
    ensures Lookup(nodes, id).Some? ==>
              Lookup(nodes, id).value.id == id && Lookup(nodes, id).value in nodes
    ensures Lookup(nodes, id).None? ==> forall n <- nodes :: n.id != id
  {
    var k := LookupIsFirst(nodes, id);
  }

  /** After a replacement the replaced id finds the new node, every other id what it found before. */
  lemma {:induction false} LookupReplaced(nodes: seq<Node>, node: Node, id: Text)
    ensures Lookup(Replace(nodes, node), id) ==
            if id == node.id && Lookup(nodes, id).Some? then Some(node) else Lookup(nodes, id)
    decreases |nodes|
  {
    if nodes != [] {
      assert Replace(nodes, node)[1..] == Replace(nodes[1..], node);
      LookupReplaced(nodes[1..], node, id);
    }
  }

  /** A refused operation changes nothing; an accepted one appends exactly its own record. */
  lemma RefusedOrRecorded(f: Fabric, op: Operation)
    ensures var r := Exec(f, op);
            match r.record
            case None => r.fabric == f
            case Some(record) => r.fabric.audit == f.audit + [record] && |r.fabric.nodes| == |f.nodes|
  {
  }

  /** A node comes out of an accepted enrolment or transition as a valid node in the new state, and
      out of enrolment only when it was neither untrusted nor revoked. */
  lemma LifecycleOutcome(f: Fabric, op: Operation)
    requires !op.Submit? && Exec(f, op).record.Some?
    ensures var before, after := Lookup(f.nodes, op.nodeId), Lookup(Exec(f, op).fabric.nodes, op.nodeId);
            && before.Some? && after.Some? && NodeValid(after.value)
            && after.value.id == op.nodeId && after.value.trustTier == before.value.trustTier
            && after.value.enrollment == (if op.Enroll? then Enrolled else if op.Revoke? then Revoked else Quarantined)
            && (op.Enroll? ==> !before.value.enrollment.Revoked? && !before.value.trustTier.Untrusted?)
            && (op.Quarantine? ==> !before.value.enrollment.Revoked?)
            && (op.Revoke? ==> after.value.health == Unavailable)
  {
    LookupFinds(f.nodes, op.nodeId);
    var current := Lookup(f.nodes, op.nodeId).value;
    hide Lookup;
    hide NodeValid;
    hide Blank;
    match op
    case Enroll(_, input, _) => LookupReplaced(f.nodes, EnrolledNode(current, input), op.nodeId);
    case Quarantine(_, _, reason, createdAt) =>
      LookupReplaced(f.nodes, TransitionedNode(current, false, reason, createdAt), op.nodeId);
    case Revoke(_, _, reason, createdAt) =>
      LookupReplaced(f.nodes, TransitionedNode(current, true, reason, createdAt), op.nodeId);
  }

  /** The node can be enrolled with the input: it is identified, known, trusted and not revoked, can be reached
      unless it is this desktop, and takes high-risk roles only after an executable probe. */
  ghost predicate Enrollable(node: Node, input: EnrollInput) {
    && !Blank(input.actor) && !Blank(input.identityFingerprint) && !Blank(node.id) && !Blank(node.name)
    && node.enrollment != Revoked && node.trustTier != Untrusted
    && (node.kind == DesktopLocal ||
        (if input.supportedTransports.Some? then input.supportedTransports.value else node.supportedTransports) != [])
    && forall role <- (if input.roles.Some? then input.roles.value else node.roles) ::
         MayTake(role, input.executableProbePassed)
  }

  ghost predicate MayTake(role: Role, probed: bool) {
    role.SafeCommandRunner? || role.ArtifactStore? || role.ModelHost? || (probed && !role.UnknownRole?)
  }

  lemma RolesAllowed(roles: seq<Role>, probed: bool)
    ensures KnownRoles(roles) && (probed || forall r <- roles :: !HighRisk(r)) <==>
            forall role <- roles :: MayTake(role, probed)
  {
    if forall role <- roles :: MayTake(role, probed) {
      assert forall r <- roles :: MayTake(r, probed) ==> !r.UnknownRole?;
    }
  }

  /** An enrolment is accepted exactly when the node its id finds can be enrolled with the input. */
  lemma EnrolmentAccepted(f: Fabric, nodeId: Text, input: EnrollInput, now: Text)
    ensures EnrollNode(f, nodeId, input, now).record.Some? <==>
            exists k: nat :: FoundAt(f.nodes, nodeId, k) && Enrollable(f.nodes[k], input)
  {
    var k := LookupIsFirst(f.nodes, nodeId);
    assert forall j: nat | FoundAt(f.nodes, nodeId, j) :: j == k;
    if k < |f.nodes| {
      RolesAllowed(if input.roles.Some? then input.roles.value else f.nodes[k].roles, input.executableProbePassed);
      hide Lookup, Blank, KnownRoles, MayTake, HighRisk;
    }
  }

  /** A quarantine or revocation is accepted exactly when an actor and a reason are given, the node exists, is well
      described, and is not quarantined out of its revocation. */
  lemma TransitionAccepted(
    f: Fabric, nodeId: Text, revoke: bool, actor: Text, reason: Text, createdAt: Text)
    ensures TransitionNode(f, nodeId, revoke, actor, reason, createdAt).record.Some? <==>
            !Blank(actor) && !Blank(reason) &&
            exists k: nat :: FoundAt(f.nodes, nodeId, k) && (revoke || f.nodes[k].enrollment != Revoked) &&
                             !Blank(f.nodes[k].id) && !Blank(f.nodes[k].name) &&
                             forall role <- f.nodes[k].roles :: !role.UnknownRole?
  {
    var k := LookupIsFirst(f.nodes, nodeId);
    hide Lookup, Blank;
    assert forall j: nat | FoundAt(f.nodes, nodeId, j) :: j == k;
  }

  /** A transition changes the state, the health, the date and the notes of its node, and nothing else. */
  lemma TransitionOutcome(
    f: Fabric, nodeId: Text, revoke: bool, actor: Text, reason: Text, createdAt: Text, k: nat)
    requires FoundAt(f.nodes, nodeId, k)
    requires TransitionNode(f, nodeId, revoke, actor, reason, createdAt).record.Some?
    ensures var after := TransitionNode(f, nodeId, revoke, actor, reason, createdAt).fabric;
            && k < |after.nodes| && var before, next := f.nodes[k], after.nodes[k];
            && next == before.(enrollment := next.enrollment, health := next.health,
                               lastVerifiedAt := Some(createdAt), notes := next.notes)
            && (next.enrollment == if revoke then Revoked else Quarantined)
            && (next.health == if revoke then Unavailable else Unknown)
            && next.notes ==
               [Literal(if revoke then "revoked" else "quarantined") + Literal(": ") + reason] + before.notes
            && after.jobs == f.jobs
            && forall j: nat | j < |f.nodes| && f.nodes[j].id != nodeId :: after.nodes[j] == f.nodes[j]
  {
    var first := LookupIsFirst(f.nodes, nodeId);
    assert first == k;
    assert Literal(": ") == [COLON, SPACE];
    hide Lookup, Blank, NodeValid;
  }

  /** What an operation makes of the node at a position: the same node, or the one it put in place
      of every node with its id. */
  lemma NodeStep(f: Fabric, op: Operation, i: nat)
    requires i < |f.nodes|
    ensures var r := Exec(f, op);
            && i < |r.fabric.nodes| && r.fabric.nodes[i].id == f.nodes[i].id
            && (r.fabric.nodes[i] == f.nodes[i] ||
                (!op.Submit? && r.record.Some? && f.nodes[i].id == op.nodeId
                 && Lookup(r.fabric.nodes, op.nodeId) == Some(r.fabric.nodes[i])))
  {
    if !op.Submit? && Exec(f, op).record.Some? {
      LookupFinds(f.nodes, op.nodeId);
      var current := Lookup(f.nodes, op.nodeId).value;
      hide Lookup;
      hide NodeValid;
      hide Blank;
      match op
      case Enroll(_, input, _) => LookupReplaced(f.nodes, EnrolledNode(current, input), op.nodeId);
      case Quarantine(_, _, reason, createdAt) =>
        LookupReplaced(f.nodes, TransitionedNode(current, false, reason, createdAt), op.nodeId);
      case Revoke(_, _, reason, createdAt) =>
        LookupReplaced(f.nodes, TransitionedNode(current, true, reason, createdAt), op.nodeId);
    }
  }

  lemma LookupStep(f: Fabric, op: Operation, id: Text)
    ensures Lookup(Exec(f, op).fabric.nodes, id) == Lookup(f.nodes, id) ||
            (!op.Submit? && op.nodeId == id && Exec(f, op).record.Some?)
  {
    if !op.Submit? && Exec(f, op).record.Some? {
      LookupFinds(f.nodes, op.nodeId);
      var current := Lookup(f.nodes, op.nodeId).value;
      hide Lookup;
      hide NodeValid;
      hide Blank;
      match op
      case Enroll(_, input, _) => LookupReplaced(f.nodes, EnrolledNode(current, input), id);
      case Quarantine(_, _, reason, createdAt) =>
        LookupReplaced(f.nodes, TransitionedNode(current, false, reason, createdAt), id);
      case Revoke(_, _, reason, createdAt) =>
        LookupReplaced(f.nodes, TransitionedNode(current, true, reason, createdAt), id);
    }
  }

  // ----- runs: nodes -----

  predicate RevokedById(nodes: seq<Node>, id: Text) {
    Lookup(nodes, id).Some? && Lookup(nodes, id).value.enrollment.Revoked?
  }

  lemma RevokedStep(f: Fabric, op: Operation, id: Text)
    requires RevokedById(f.nodes, id)
    ensures RevokedById(Exec(f, op).fabric.nodes, id)
  {
    LookupStep(f, op, id);
    if !op.Submit? && op.nodeId == id && Exec(f, op).record.Some? {
      LifecycleOutcome(f, op);
    }
    hide Exec;
    hide Lookup;
  }

  /** Revocation is final: in every run the node an id finds stays revoked. */
  lemma {:induction false} RevokedForever(f: Fabric, ops: seq<Operation>, id: Text)
    requires RevokedById(f.nodes, id)
    ensures RevokedById(Run(f, ops).nodes, id)
    decreases |ops|
  {
    hide Exec;
    hide RevokedById;
    if ops != [] {
      RevokedStep(f, ops[0], id);
      RevokedForever(Exec(f, ops[0]).fabric, ops[1..], id);
    }
  }

  predicate RevokedAt(f: Fabric, i: nat) {
    i < |f.nodes| && f.nodes[i].enrollment.Revoked?
  }

  lemma RevokedAtStep(f: Fabric, op: Operation, i: nat)
    requires RevokedAt(f, i) && RevokedById(f.nodes, f.nodes[i].id)
    ensures RevokedAt(Exec(f, op).fabric, i) && Exec(f, op).fabric.nodes[i].id == f.nodes[i].id
  {
    NodeStep(f, op, i);
    RevokedStep(f, op, f.nodes[i].id);
    hide Exec;
    hide Lookup;
  }

  lemma {:induction false} RevokedAtForever(f: Fabric, ops: seq<Operation>, i: nat)
    requires RevokedAt(f, i) && RevokedById(f.nodes, f.nodes[i].id)
    ensures RevokedAt(Run(f, ops), i)
    decreases |ops|
  {
    if ops != [] {
      RevokedAtStep(f, ops[0], i);
      RevokedStep(f, ops[0], f.nodes[i].id);
      hide Exec;
      hide RevokedById;
      RevokedAtForever(Exec(f, ops[0]).fabric, ops[1..], i);
    }
  }

  predicate AllValid(f: Fabric) {
    forall i: nat | i < |f.nodes| :: NodeValid(f.nodes[i])
  }

  ghost predicate StaysRevoked(f: Fabric, i: nat) {
    forall ops: seq<Operation> :: RevokedAt(Run(f, ops), i)
  }

  const OPERATOR: Text := [0x6F, 0x70]  // op

  lemma OperatorNotBlank()
    ensures !Blank(OPERATOR)
  {
    BlankIsAllSpace(OPERATOR);
    assert OPERATOR[0] in OPERATOR;
  }

  /** Quarantining an id whose first node is valid and not revoked un-revokes its later namesakes. */
  lemma NamesakeRevived(f: Fabric, i: nat)
    requires RevokedAt(f, i) && AllValid(f) && !RevokedById(f.nodes, f.nodes[i].id)
    ensures var op := Quarantine(f.nodes[i].id, OPERATOR, OPERATOR, OPERATOR);
            !RevokedAt(Exec(f, op).fabric, i)
  {
    var id := f.nodes[i].id;
    var op := Quarantine(id, OPERATOR, OPERATOR, OPERATOR);
    OperatorNotBlank();
    LookupFinds(f.nodes, id);
    assert f.nodes[i] in f.nodes;
    var current := Lookup(f.nodes, id).value;
    var k: nat :| k < |f.nodes| && f.nodes[k] == current;
    assert NodeValid(f.nodes[k]);
    var next := TransitionedNode(current, false, OPERATOR, OPERATOR);
    hide Lookup;
    hide Blank;
    assert NodeValid(next);
    assert Exec(f, op).fabric.nodes == Replace(f.nodes, next);
  }

  /** In a fabric of valid nodes a revoked node stays revoked in every run exactly when the first
      node with its id is revoked.  With distinct ids that is the node itself. */
  lemma RevokedAtExactly(f: Fabric, i: nat)
    requires RevokedAt(f, i) && AllValid(f)
    ensures StaysRevoked(f, i) <==> RevokedById(f.nodes, f.nodes[i].id)
  {
    if RevokedById(f.nodes, f.nodes[i].id) {
      forall ops: seq<Operation> ensures RevokedAt(Run(f, ops), i) {
        RevokedAtForever(f, ops, i);
      }
    } else {
      NamesakeRevived(f, i);
      var ops := [Quarantine(f.nodes[i].id, OPERATOR, OPERATOR, OPERATOR)];
      hide Exec;
      hide RevokedById;
      assert ops[1..] == [];
      assert Run(f, ops) == Exec(f, ops[0]).fabric;
      assert !RevokedAt(Run(f, ops), i);
    }
  }

  predicate DistinctIds(nodes: seq<Node>) {
    forall i: nat, j: nat | i < j < |nodes| :: nodes[i].id != nodes[j].id
  }

  lemma {:induction false} DistinctLookup(nodes: seq<Node>, i: nat)
    requires i < |nodes| && DistinctIds(nodes)
    ensures Lookup(nodes, nodes[i].id) == Some(nodes[i])
    decreases |nodes|
  {
    if i > 0 {
      var zero: nat := 0;
      assert nodes[zero].id != nodes[i].id;
      forall a: nat, b: nat | a < b < |nodes[1..]| ensures nodes[1..][a].id != nodes[1..][b].id {
        var c, d: nat := a + 1, b + 1;
        assert nodes[c].id != nodes[d].id;
      }
      assert nodes[1..][i - 1] == nodes[i];
      DistinctLookup(nodes[1..], i - 1);
    }
  }

  /** With distinct ids, a revoked node is revoked in every run. */
  lemma RevokedNodeForever(f: Fabric, ops: seq<Operation>, i: nat)
    requires DistinctIds(f.nodes) && RevokedAt(f, i)
    ensures RevokedAt(Run(f, ops), i)
  {
    DistinctLookup(f.nodes, i);
    RevokedAtForever(f, ops, i);
  }

  predicate NoUntrustedEnrolled(nodes: seq<Node>) {
    forall i: nat | i < |nodes| :: !(nodes[i].trustTier.Untrusted? && nodes[i].enrollment.Enrolled?)
  }

  predicate NodesSound(f: Fabric) {
    NoUntrustedEnrolled(f.nodes) && AllValid(f)
  }

  lemma NodesSoundStep(f: Fabric, op: Operation)
    requires NodesSound(f)
    ensures NodesSound(Exec(f, op).fabric)
  {
    var g := Exec(f, op).fabric;
    RefusedOrRecorded(f, op);
    assert |g.nodes| == |f.nodes|;
    forall i: nat | i < |g.nodes|
      ensures NodeValid(g.nodes[i]) && !(g.nodes[i].trustTier.Untrusted? && g.nodes[i].enrollment.Enrolled?)
    {
      NodeStep(f, op, i);
      assert NodeValid(f.nodes[i]);
      if g.nodes[i] != f.nodes[i] {
        LifecycleOutcome(f, op);
      }
      hide Exec;
      hide Lookup;
    }
  }

  /** No run enrols an untrusted node or leaves an invalid one. */
  lemma {:induction false} NodesSoundForever(f: Fabric, ops: seq<Operation>)
    requires NodesSound(f)
    ensures NodesSound(Run(f, ops))
    decreases |ops|
  {
    hide Exec;
    hide NodesSound;
    if ops != [] {
      NodesSoundStep(f, ops[0]);
      NodesSoundForever(Exec(f, ops[0]).fabric, ops[1..]);
    }
  }

  /** Whatever the fabric held before, an untrusted node is never turned into an enrolled one. */
  lemma UntrustedNeverEnrolled(f: Fabric, op: Operation, i: nat)
    requires i < |f.nodes| && i < |Exec(f, op).fabric.nodes|
    requires Exec(f, op).fabric.nodes[i].enrollment.Enrolled? && Exec(f, op).fabric.nodes[i].trustTier.Untrusted?
    ensures Exec(f, op).fabric.nodes[i] == f.nodes[i]
  {
    NodeStep(f, op, i);
    if Exec(f, op).fabric.nodes[i] != f.nodes[i] {
      LifecycleOutcome(f, op);
      hide Exec;
      hide Lookup;
      assert false;
    }
  }

  // ----- runs: roles -----

  predicate TakesRisk(node: Node) {
    exists r <- node.roles :: HighRisk(r)
  }

  /** Every reading that was given replaces the one before. */
  ghost predicate Merged(before: Probe, given: Probe, after: Probe) {
    && after.os == (if given.os.Some? then given.os else before.os)
    && after.arch == (if given.arch.Some? then given.arch else before.arch)
    && after.ramGb == (if given.ramGb.Some? then given.ramGb else before.ramGb)
    && after.containerRuntimes ==
       (if given.containerRuntimes.Some? then given.containerRuntimes else before.containerRuntimes)
    && after.containerPlatforms ==
       (if given.containerPlatforms.Some? then given.containerPlatforms else before.containerPlatforms)
  }

  /** What an accepted enrolment records of its input, and what it keeps of the node. */
  lemma EnrolmentOutcome(f: Fabric, nodeId: Text, input: EnrollInput, now: Text)
    requires EnrollNode(f, nodeId, input, now).record.Some?
    ensures var r := EnrollNode(f, nodeId, input, now);
            var before, after := Lookup(f.nodes, nodeId), Lookup(r.fabric.nodes, nodeId);
            && before.Some? && after.Some?
            && after.value.identityFingerprint == Some(input.identityFingerprint) && !Blank(input.identityFingerprint)
            && (TakesRisk(after.value) ==> input.executableProbePassed)
            && after.value.roles == (if input.roles.Some? then input.roles.value else before.value.roles)
            && after.value.endpoint == (if input.endpoint.Some? then input.endpoint else before.value.endpoint)
            && after.value.supportedTransports ==
               (if input.supportedTransports.Some? then input.supportedTransports.value
                else before.value.supportedTransports)
            && after.value.health == (if input.health.Some? then input.health.value else Unknown)
            && after.value.lastVerifiedAt == input.createdAt
            && after.value.kind == before.value.kind && after.value.name == before.value.name
            && after.value.notes == input.notes + before.value.notes
            && (input.probe.None? ==> after.value.probe == before.value.probe)
            && (input.probe.Some? ==> Merged(before.value.probe, input.probe.value, after.value.probe))
  {
    var current := Lookup(f.nodes, nodeId).value;
    LookupFinds(f.nodes, nodeId);
    LookupReplaced(f.nodes, EnrolledNode(current, input), nodeId);
    hide Lookup, NodeValid, Blank, HighRisk;
  }

  lemma EnrolledStep(f: Fabric, op: Operation, i: nat)
    requires i < |f.nodes| && i < |Exec(f, op).fabric.nodes|
    ensures var node := Exec(f, op).fabric.nodes[i];
            node.enrollment.Enrolled? && TakesRisk(node) && node != f.nodes[i] ==>
              op.Enroll? && op.nodeId == node.id && op.input.executableProbePassed
  {
    NodeStep(f, op, i);
    var node := Exec(f, op).fabric.nodes[i];
    if node.enrollment.Enrolled? && node != f.nodes[i] {
      LifecycleOutcome(f, op);
      if op.Enroll? {
        EnrolmentOutcome(f, op.nodeId, op.input, op.now);
      }
      hide Lookup, NodeValid, Blank, EnrollNode, TransitionNode, TakesRisk;
    }
  }

  /** The run enrols the node with this id after a passed probe. */
  ghost predicate Probed(ops: seq<Operation>, id: Text) {
    exists op <- ops :: op.Enroll? && op.nodeId == id && op.input.executableProbePassed
  }

  /** In every run, an enrolled node with a high-risk role is as it was at the start, or the run enrolled
      it after a passed probe. */
  lemma {:induction false} HighRiskIsProbed(f: Fabric, ops: seq<Operation>, i: nat)
    requires i < |f.nodes|
    ensures var after := Run(f, ops).nodes;
            && i < |after| && after[i].id == f.nodes[i].id
            && (after[i].enrollment.Enrolled? && TakesRisk(after[i]) && after[i] != f.nodes[i]
                ==> Probed(ops, f.nodes[i].id))
    decreases |ops|
  {
    if ops != [] {
      NodeStep(f, ops[0], i);
      EnrolledStep(f, ops[0], i);
      HighRiskIsProbed(Exec(f, ops[0]).fabric, ops[1..], i);
      hide Exec, TakesRisk;
      assert ops == [ops[0]] + ops[1..];
    }
  }

  // ----- runs: the audit log -----

  /** The record carries its own position in its id. */
  ghost predicate Numbered(id: Text, n: nat) {
    exists stem: Text :: id == stem + [DASH] + Decimal(n)
  }

  ghost predicate NumberedLog(audit: seq<Audit>) {
    forall i: nat | i < |audit| :: Numbered(audit[i].id, i + 1)
  }

  ghost predicate Notes(record: Audit, nodeId: Text, event: string, createdAt: Text) {
    && record.jobId == Literal("compute-node-") + nodeId && record.nodeId == Some(nodeId)
    && record.event == Literal(event) && record.createdAt == createdAt
  }

  /** The record of an accepted operation says what was done to which node or job, and when. */
  lemma RecordOutcome(f: Fabric, op: Operation)
    requires Exec(f, op).record.Some?
    ensures var record := Exec(f, op).record.value;
            match op
            case Submit(job, _, createdAt) =>
              record.jobId == job.id && record.nodeId == SubmittedJob(f.nodes, job).targetNodeId
              && record.createdAt == createdAt && record.event == Literal("submitted")
            case Enroll(id, input, now) =>
              Notes(record, id, "enrolled", if input.createdAt.Some? then input.createdAt.value else now)
            case Quarantine(id, _, _, createdAt) => Notes(record, id, "quarantined", createdAt)
            case Revoke(id, _, _, createdAt) => Notes(record, id, "revoked", createdAt)
  {
    if !op.Submit? {
      LookupFinds(f.nodes, op.nodeId);
    }
    hide Lookup, NodeValid, JobAcceptable, Decimal, Blank, SelectNode, OtherJobs;
  }

  lemma NumberedStep(f: Fabric, op: Operation)
    requires NumberedLog(f.audit)
    ensures NumberedLog(Exec(f, op).fabric.audit)
  {
    RefusedOrRecorded(f, op);
    var r := Exec(f, op);
    if r.record.Some? {
      RecordNumbered(f, op);
      hide Exec;
      hide Numbered;
      forall i: nat | i < |r.fabric.audit| ensures Numbered(r.fabric.audit[i].id, i + 1) {
        if i < |f.audit| {
          assert r.fabric.audit[i] == f.audit[i];
        }
      }
    }
  }

  lemma RecordNumbered(f: Fabric, op: Operation)
    requires Exec(f, op).record.Some?
    ensures Numbered(Exec(f, op).record.value.id, |f.audit| + 1)
  {
    hide Lookup;
    hide NodeValid;
    hide JobAcceptable;
    hide Decimal;
    var id := Exec(f, op).record.value.id;
    match op
    case Submit(job, _, _) =>
      assert id == AUDIT_STEM + SubmittedJob(f.nodes, job).id + [DASH] + Decimal(|f.audit| + 1);
    case Enroll(_, input, _) =>
      var node := EnrolledNode(Lookup(f.nodes, op.nodeId).value, input);
      assert id == (AUDIT_STEM + node.id + [DASH] + ENROLLED_EVENT) + [DASH] + Decimal(|f.audit| + 1);
    case Quarantine(_, _, reason, createdAt) =>
      var node := TransitionedNode(Lookup(f.nodes, op.nodeId).value, false, reason, createdAt);
      assert id == (AUDIT_STEM + node.id + [DASH] + QUARANTINED_EVENT) + [DASH] + Decimal(|f.audit| + 1);
    case Revoke(_, _, reason, createdAt) =>
      var node := TransitionedNode(Lookup(f.nodes, op.nodeId).value, true, reason, createdAt);
      assert id == (AUDIT_STEM + node.id + [DASH] + REVOKED_EVENT) + [DASH] + Decimal(|f.audit| + 1);
  }

  lemma {:induction false} NumberedForever(f: Fabric, ops: seq<Operation>)
    requires NumberedLog(f.audit)
    ensures NumberedLog(Run(f, ops).audit)
    decreases |ops|
  {
    hide Exec;
    hide NumberedLog;
    if ops != [] {
      NumberedStep(f, ops[0]);
      NumberedForever(Exec(f, ops[0]).fabric, ops[1..]);
    }
  }

  function Accepted(f: Fabric, ops: seq<Operation>): nat
    decreases |ops|
  {
    if ops == [] then 0
    else (if Exec(f, ops[0]).record.Some? then 1 else 0) + Accepted(Exec(f, ops[0]).fabric, ops[1..])
  }

  /** The log is append-only and grows by one record for every accepted operation. */
  lemma {:induction false} LogAppendOnly(f: Fabric, ops: seq<Operation>)
    ensures f.audit <= Run(f, ops).audit
    ensures |Run(f, ops).audit| == |f.audit| + Accepted(f, ops)
    decreases |ops|
  {
    if ops != [] {
      RefusedOrRecorded(f, ops[0]);
      hide Exec;
      LogAppendOnly(Exec(f, ops[0]).fabric, ops[1..]);
    }
  }

  /** From an empty log on, no two records of a run have the same id. */
  lemma AuditIdsDistinct(f: Fabric, ops: seq<Operation>, i: nat, j: nat)
    requires f.audit == [] && i < j < |Run(f, ops).audit|
    ensures Run(f, ops).audit[i].id != Run(f, ops).audit[j].id
  {
    NumberedForever(f, ops);
    var audit := Run(f, ops).audit;
    hide Run;
    assert Numbered(audit[i].id, i + 1) && Numbered(audit[j].id, j + 1);
    var a: Text :| audit[i].id == a + [DASH] + Decimal(i + 1);
    var b: Text :| audit[j].id == b + [DASH] + Decimal(j + 1);
    if audit[i].id == audit[j].id {
      NumberedNamesInjective(a, DASH, i + 1, b, DASH, j + 1);
    }
  }

  // ----- runs: jobs -----

  predicate DistinctJobs(jobs: seq<Job>) {
    forall i: nat, j: nat | i < j < |jobs| :: jobs[i].id != jobs[j].id
  }

  lemma {:induction false} OtherJobsAre(jobs: seq<Job>, id: Text)
    ensures forall j: Job :: j in OtherJobs(jobs, id) <==> j in jobs && j.id != id
    ensures DistinctJobs(jobs) ==> DistinctJobs(OtherJobs(jobs, id))
    decreases |jobs|
  {
    if jobs != [] {
      var rest, last := jobs[..|jobs| - 1], jobs[|jobs| - 1];
      assert jobs == rest + [last];
      OtherJobsAre(rest, id);
      if DistinctJobs(jobs) {
        assert DistinctJobs(rest);
        forall j: Job | j in rest ensures j.id != last.id {
          var k: nat :| k < |rest| && rest[k] == j;
          var n: nat := |jobs| - 1;
          assert jobs[k].id != jobs[n].id;
        }
        DistinctJobsAppend(OtherJobs(rest, id), last);
      }
    }
  }

  lemma DistinctJobsAppend(jobs: seq<Job>, last: Job)
    requires DistinctJobs(jobs)
    ensures (forall j: Job | j in jobs :: j.id != last.id) ==> DistinctJobs(jobs + [last])
  {
    if forall j: Job | j in jobs :: j.id != last.id {
      var all := jobs + [last];
      forall i: nat, j: nat | i < j < |all| ensures all[i].id != all[j].id {
        assert all[i] == jobs[i] && jobs[i] in jobs;
        if j < |jobs| {
          assert all[j] == jobs[j];
        }
      }
    }
  }

  lemma JobsDistinctStep(f: Fabric, op: Operation)
    requires DistinctJobs(f.jobs)
    ensures DistinctJobs(Exec(f, op).fabric.jobs)
  {
    if op.Submit? && Exec(f, op).record.Some? {
      var submitted := SubmittedJob(f.nodes, op.job);
      OtherJobsAre(f.jobs, submitted.id);
      DistinctJobsAppend(OtherJobs(f.jobs, submitted.id), submitted);
      assert Exec(f, op).fabric.jobs == OtherJobs(f.jobs, submitted.id) + [submitted];
    }
  }

  /** Job ids stay unique over every run. */
  lemma {:induction false} JobsDistinctForever(f: Fabric, ops: seq<Operation>)
    requires DistinctJobs(f.jobs)
    ensures DistinctJobs(Run(f, ops).jobs)
    decreases |ops|
  {
    hide Exec;
    hide DistinctJobs;
    if ops != [] {
      JobsDistinctStep(f, ops[0]);
      JobsDistinctForever(Exec(f, ops[0]).fabric, ops[1..]);
    }
  }

  /** A submission replaces the job of its id and keeps every other one; the recorded job is the submitted
      one but for its target, and a blocked, failed or cancelled job is queued again. */
  lemma SubmissionRecorded(f: Fabric, job: Job, allowDirect: bool, createdAt: Text)
    requires SubmitJob(f, job, allowDirect, createdAt).record.Some?
    ensures var recorded := SubmittedJob(f.nodes, job);
            var after := SubmitJob(f, job, allowDirect, createdAt).fabric.jobs;
            && (forall j: Job :: j in after <==> j == recorded || (j in f.jobs && j.id != job.id))
            && recorded == job.(targetNodeId := recorded.targetNodeId, status := recorded.status)
            && !recorded.status.Blocked? && !recorded.status.Failed? && !recorded.status.Cancelled?
            && (recorded.status == job.status || recorded.status.Queued?)
  {
    OtherJobsAre(f.jobs, job.id);
    hide OtherJobs, JobAcceptable, SelectNode;
  }

  /** A submission is accepted exactly when the job is well formed and within limits, and the first node of the id it
      names may be chosen and suits it, or, when it names none, some node suits it. */
  lemma SubmissionAccepted(f: Fabric, job: Job, allowDirect: bool, createdAt: Text)
    ensures SubmitJob(f, job, allowDirect, createdAt).record.Some? <==>
            && DeclarationAcceptable(job) && LimitsAcceptable(job)
            && if job.targetNodeId in {None, Some([])} then
                 Executable(job) ==> exists k: nat :: k < |f.nodes| && Satisfies(f.nodes[k], job)
               else
                 && (Literal("addon.") <= job.consumerId ==> allowDirect)
                 && exists k: nat :: FoundAt(f.nodes, job.targetNodeId.value, k) &&
                                     (Executable(job) ==> Satisfies(f.nodes[k], job))
  {
    PlacementExactly(f.nodes, job, allowDirect);
    hide PlacementAcceptable, DeclarationAcceptable, LimitsAcceptable, Satisfies, Executable, Literal;
  }

  /** The recorded target is a registered node that satisfies the job. */
  ghost predicate WellPlaced(nodes: seq<Node>, recorded: Job, job: Job) {
    recorded.targetNodeId.Some? &&
    exists k: nat :: k < |nodes| && nodes[k].id == recorded.targetNodeId.value && Satisfies(nodes[k], job)
  }

  /** An accepted executable job without a target is recorded with the first node that satisfies it;
      one that names a target is recorded with that node, which satisfies it. */
  lemma PlacementCorrect(f: Fabric, job: Job, allowDirect: bool, createdAt: Text)
    requires Executable(job) && SubmitJob(f, job, allowDirect, createdAt).record.Some?
    ensures var recorded := SubmittedJob(f.nodes, job);
            && recorded in SubmitJob(f, job, allowDirect, createdAt).fabric.jobs
            && (job.targetNodeId.None? ==>
                  exists k: nat :: FirstFit(f.nodes, job, k) && recorded.targetNodeId == Some(f.nodes[k].id))
            && (Names(job) ==>
                  recorded.targetNodeId == job.targetNodeId
                  && Lookup(f.nodes, job.targetNodeId.value).Some?
                  && Satisfies(Lookup(f.nodes, job.targetNodeId.value).value, job))
  {
    SelectNodeIsFirstFit(f.nodes, job);
    var recorded := SubmittedJob(f.nodes, job);
    hide Satisfies;
    hide Lookup;
    hide SelectNode;
    hide DeclarationAcceptable;
    hide LimitsAcceptable;
    hide Decimal;
    var jobs := SubmitJob(f, job, allowDirect, createdAt).fabric.jobs;
    assert jobs[|jobs| - 1] == recorded;
  }

  /** An accepted executable job with an empty target keeps it: although a suitable node was found, the
      record names none, unless a node without a name suits.  Every other accepted executable job is
      well placed. */
  lemma WellPlacedExactly(f: Fabric, job: Job, allowDirect: bool, createdAt: Text)
    requires Executable(job) && SubmitJob(f, job, allowDirect, createdAt).record.Some?
    ensures WellPlaced(f.nodes, SubmittedJob(f.nodes, job), job) <==>
            job.targetNodeId != Some([]) ||
            exists k: nat :: k < |f.nodes| && f.nodes[k].id == [] && Satisfies(f.nodes[k], job)
  {
    PlacementCorrect(f, job, allowDirect, createdAt);
    var recorded := SubmittedJob(f.nodes, job);
    if job.targetNodeId.None? {
      var k: nat :| FirstFit(f.nodes, job, k) && recorded.targetNodeId == Some(f.nodes[k].id);
      hide Satisfies;
      assert WellPlaced(f.nodes, recorded, job);
    } else if Names(job) {
      LookupFinds(f.nodes, job.targetNodeId.value);
      var node := Lookup(f.nodes, job.targetNodeId.value).value;
      var k: nat :| k < |f.nodes| && f.nodes[k] == node;
      hide Satisfies;
      hide Lookup;
      assert WellPlaced(f.nodes, recorded, job);
    } else {
      assert recorded.targetNodeId == Some([]);
      hide Satisfies;
    }
  }

  /** In a fabric of valid nodes, then, exactly the jobs without an empty target are well placed. */
  lemma WellPlacedInValidFabric(f: Fabric, job: Job, allowDirect: bool, createdAt: Text)
    requires AllValid(f)
    requires Executable(job) && SubmitJob(f, job, allowDirect, createdAt).record.Some?
    ensures WellPlaced(f.nodes, SubmittedJob(f.nodes, job), job) <==> job.targetNodeId != Some([])
  {
    WellPlacedExactly(f, job, allowDirect, createdAt);
    forall k: nat | k < |f.nodes| ensures f.nodes[k].id != [] {
      assert NodeValid(f.nodes[k]);
      BlankIsAllSpace(f.nodes[k].id);
    }
  }
}
