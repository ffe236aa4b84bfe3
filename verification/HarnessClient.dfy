/** The client's projection of the host registry: snapshots ordered by boot epoch and
    revision, responses that arrive late or twice, and a replay cursor per session that
    several concurrent readers share. */
module HarnessClient {
  import opened Options

  const MAX_SAFE_INTEGER: int := 9007199254740991

  const REGISTRY_COMMAND: string := "harness_registry"

  datatype Owner = Owner(addonId: Option<string>, generation: int, available: bool)

  /** A host snapshot.  An absent boot epoch and a revision that is no integer are None;
      `content` stands for the candidates, the installations and the other slots. */
  datatype Projection = Projection(
    bootEpoch: Option<string>, revision: Option<int>, primaryAgent: Option<Owner>, content: int)

  datatype Session = Session(bootEpoch: string, addonId: string, sessionId: string, generation: int)

  datatype Frame = Frame(provenance: Session, sequence: int, payload: int)

  /** What `JSON.stringify` tells apart in the owner of a projection. */
  datatype OwnerKey = OwnerKey(
    boot: Option<string>, addonId: Option<string>, generation: Option<int>, available: Option<bool>)

  function OwnerKeyOf(p: Option<Projection>): OwnerKey {
    if p.None? then OwnerKey(None, None, None, None)
    else
      match p.value.primaryAgent
      case None => OwnerKey(p.value.bootEpoch, None, None, None)
      case Some(o) => OwnerKey(p.value.bootEpoch, o.addonId, Some(o.generation), Some(o.available))
  }

  predicate AcceptableRevision(r: Option<int>) {
    r.Some? && 0 <= r.value <= MAX_SAFE_INTEGER
  }

  predicate SafeInteger(n: int) {
    -MAX_SAFE_INTEGER <= n <= MAX_SAFE_INTEGER
  }

  /** The session's add-on holds the primary slot, available, in this boot and generation. */
  predicate OwnedBy(key: OwnerKey, session: Session) {
    key == OwnerKey(Some(session.bootEpoch), Some(session.addonId), Some(session.generation), Some(true))
  }

  // ----- the client as a value -----

  datatype Client = Client(projection: Option<Projection>, epochVersion: nat, sequences: map<Session, int>)

  const FRESH: Client := Client(None, 0, map[])

  function BootOf(p: Option<Projection>): Option<string> {
    if p.Some? then p.value.bootEpoch else None
  }

  function Published(c: Client, next: Projection): Client {
    Client(
      Some(next),
      if c.projection.None? || next.bootEpoch != c.projection.value.bootEpoch
      then c.epochVersion + 1 else c.epochVersion,
      if OwnerKeyOf(Some(next)) != OwnerKeyOf(c.projection) then map[] else c.sequences)
  }

  /** A snapshot that `applySnapshot` takes: of this boot, and newer. */
  predicate Applicable(c: Client, next: Projection) {
    && AcceptableRevision(next.revision)
    && (c.projection.Some? ==>
          && next.bootEpoch == c.projection.value.bootEpoch
          && c.projection.value.revision.Some? && next.revision.value > c.projection.value.revision.value)
  }

  function Applied(c: Client, next: Projection): Client {
    if Applicable(c, next) then Published(c, next) else c
  }

  /** A registry answer that establishes a different boot. */
  predicate EstablishesBoot(c: Client, name: string, next: Projection) {
    && name == REGISTRY_COMMAND
    && c.projection.Some? && next.bootEpoch != c.projection.value.bootEpoch
    && next.bootEpoch.Some? && next.bootEpoch.value != ""
    && AcceptableRevision(next.revision)
  }

  /** The boot version a command carries across its await. */
  function RequestVersion(c: Client): nat {
    c.epochVersion
  }

  function Responded(c: Client, name: string, requestEpoch: nat, next: Projection): Client {
    if requestEpoch == c.epochVersion || next.bootEpoch == BootOf(c.projection) then
      if EstablishesBoot(c, name, next) then Published(c, next) else Applied(c, next)
    else c
  }

  datatype Delivery = Ended | Ignored | Yielded

  function DeliveryOf(c: Client, session: Session, frame: Frame): Delivery {
    if !OwnedBy(OwnerKeyOf(c.projection), session) then Ended
    else if frame.provenance != session || !SafeInteger(frame.sequence)
            || frame.sequence <= (if session in c.sequences then c.sequences[session] else 0) then Ignored
    else Yielded
  }

  function Delivered(c: Client, session: Session, frame: Frame): Client {
    if DeliveryOf(c, session, frame).Yielded? then c.(sequences := c.sequences[session := frame.sequence]) else c
  }

  // ----- the client as the closure state it is -----

  class HarnessClient {
    var projection: Option<Projection>
    var epochVersion: nat
    var sequences: map<Session, int>

    function Value(): Client
      reads this
    {
      Client(projection, epochVersion, sequences)
    }

    /** Only acceptable snapshots are ever held. */
    predicate Valid()
      reads this
    {
      projection.Some? ==> AcceptableRevision(projection.value.revision)
    }

    constructor ()
      ensures Valid() && Value() == FRESH
    {
      projection, epochVersion, sequences := None, 0, map[];
    }

    method Publish(next: Projection)
      requires AcceptableRevision(next.revision)
      modifies this
      ensures Valid() && Value() == Published(old(Value()), next)
    {
      if projection.None? || next.bootEpoch != projection.value.bootEpoch {
        epochVersion := epochVersion + 1;
      }
      if OwnerKeyOf(Some(next)) != OwnerKeyOf(projection) {
        sequences := map[];
      }
      projection := Some(next);
    }

    method ApplySnapshot(next: Projection) returns (applied: bool)
      requires Valid()
      modifies this
      ensures Valid()
      ensures applied == Applicable(old(Value()), next)
      ensures Value() == Applied(old(Value()), next)
    {
      if !AcceptableRevision(next.revision)
         || (projection.Some?
             && (next.bootEpoch != projection.value.bootEpoch
                 || next.revision.value <= projection.value.revision.value))
      {
        return false;
      }
      Publish(next);
      return true;
    }

    /** The part of a command before its await: the boot version the answer will be held against. */
    method BeginCommand() returns (requestEpochVersion: nat)
      ensures requestEpochVersion == RequestVersion(Value())
    {
      requestEpochVersion := epochVersion;
    }

    /** The part of a command after its await. */
    method CompleteCommand(name: string, requestEpochVersion: nat, next: Projection)
      requires Valid()
      modifies this
      ensures Valid()
      ensures Value() == Responded(old(Value()), name, requestEpochVersion, next)
    {
      var current := if projection.Some? then projection.value.bootEpoch else None;
      if requestEpochVersion == epochVersion || next.bootEpoch == current {
        if name == REGISTRY_COMMAND && projection.Some? && next.bootEpoch != projection.value.bootEpoch
           && next.bootEpoch.Some? && |next.bootEpoch.value| > 0 && AcceptableRevision(next.revision)
        {
          Publish(next);
        } else {
          var _ := ApplySnapshot(next);
        }
      }
    }

    /** One turn of an event reader's loop. */
    method ReadFrame(session: Session, frame: Frame) returns (delivery: Delivery)
      modifies this`sequences
      ensures delivery == DeliveryOf(old(Value()), session, frame)
      ensures Value() == Delivered(old(Value()), session, frame)
    {
      if projection.None? || projection.value.primaryAgent.None? { return Ended; }
      var owner := projection.value.primaryAgent.value;
      if !owner.available || projection.value.bootEpoch != Some(session.bootEpoch)
         || owner.addonId != Some(session.addonId) || owner.generation != session.generation
      {
        return Ended;
      }
      var cursor := if session in sequences then sequences[session] else 0;
      if frame.provenance.addonId != session.addonId || frame.provenance.sessionId != session.sessionId
         || frame.provenance.bootEpoch != session.bootEpoch || frame.provenance.generation != session.generation
         || !SafeInteger(frame.sequence) || frame.sequence <= cursor
      {
        return Ignored;
      }
      sequences := sequences[session := frame.sequence];
      return Yielded;
    }
  }

  // ----- runs -----

  /** Why a snapshot was published: handed in directly, or the answer to a command that had been
      issued when `issuedAt` snapshots were published. */
  datatype Cause = Direct | Response(name: string, issuedAt: nat)

  datatype Publication = Publication(next: Projection, cause: Cause)

  datatype Pending = Pending(name: string, version: nat, issuedAt: nat)

  /** A frame handed to a consumer, with the index of the owner key held at that moment. */
  datatype Receipt = Receipt(session: Session, sequence: int, ownerAt: int)

  /** The client, the commands in flight, and the history of publications, owner keys and
      yielded frames. */
  datatype System = System(
    client: Client,
    pending: map<nat, Pending>,
    log: seq<Publication>,
    owners: seq<OwnerKey>,
    receipts: seq<Receipt>)

  const START: System := System(FRESH, map[], [], [OwnerKeyOf(None)], [])

  datatype Step =
    | Issue(id: nat, name: string)
    | Respond(id: nat, next: Projection)
    | Reject(id: nat)
    | Apply(next: Projection)
    | Arrive(session: Session, frame: Frame)

  function Record(s: System, client: Client, cause: Cause): System {
    if client == s.client || client.projection.None? then s.(client := client)
    else
      var key := OwnerKeyOf(client.projection);
      s.(client := client,
         log := s.log + [Publication(client.projection.value, cause)],
         owners := if key == OwnerKeyOf(s.client.projection) then s.owners else s.owners + [key])
  }

  function Exec(s: System, step: Step): System {
    match step
    case Issue(id, name) =>
      if id in s.pending then s
      else s.(pending := s.pending[id := Pending(name, RequestVersion(s.client), |s.log|)])
    case Respond(id, next) =>
      if id !in s.pending then s
      else
        var p := s.pending[id];
        var cause := Response(p.name, p.issuedAt);
        Record(s.(pending := s.pending - {id}), Responded(s.client, p.name, p.version, next), cause)
    case Reject(id) =>
      s.(pending := s.pending - {id})
    case Apply(next) =>
      Record(s, Applied(s.client, next), Direct)
    case Arrive(session, frame) =>
      s.(client := Delivered(s.client, session, frame),
         receipts := if DeliveryOf(s.client, session, frame).Yielded?
                     then s.receipts + [Receipt(session, frame.sequence, |s.owners| - 1)] else s.receipts)
  }

  /** A command in flight is known by the boot version and the publications at its start, until it is answered. */
  lemma PendingTracked(s: System, step: Step)
    ensures var t := Exec(s, step);
            match step
            case Issue(id, name) =>
              && id in t.pending && (forall other | other != id ::
                    (other in t.pending <==> other in s.pending)
                    && (other in s.pending ==> t.pending[other] == s.pending[other]))
              && t.pending[id] == (if id in s.pending then s.pending[id]
                                   else Pending(name, s.client.epochVersion, |s.log|))
            case Respond(id, _) => t.pending == s.pending - {id}
            case Reject(id) => t.pending == s.pending - {id}
            case _ => t.pending == s.pending
  {
  }

  /** `Number.isSafeInteger`, and a revision that is one and not negative. */
  lemma SafeIntegersAre(n: int)
    ensures SafeInteger(n) <==> -0x20_0000_0000_0000 < n < 0x20_0000_0000_0000
    ensures AcceptableRevision(Some(n)) <==> -1 < n < 0x20_0000_0000_0000
    ensures !AcceptableRevision(None)
  {
  }

  function Run(steps: seq<Step>): System {
    if steps == [] then START else Exec(Run(steps[..|steps| - 1]), steps[|steps| - 1])
  }

  // ----- the invariant of all runs -----

  function BootChanges(log: seq<Publication>): nat {
    if log == [] then 0
    else if |log| == 1 || log[|log| - 1].next.bootEpoch != log[|log| - 2].next.bootEpoch then
      BootChanges(log[..|log| - 1]) + 1
    else BootChanges(log[..|log| - 1])
  }

  /** A publication is the first, or newer in the same boot, or another boot's, answered to a
      registry request issued since the previous change of boot. */
  predicate Justified(log: seq<Publication>, i: nat)
    requires i < |log|
  {
    var p := log[i];
    && AcceptableRevision(p.next.revision)
    && (p.cause.Response? ==> p.cause.issuedAt <= i)
    && (i > 0 ==>
          var previous := log[i - 1].next;
          if p.next.bootEpoch == previous.bootEpoch then
            previous.revision.Some? && p.next.revision.value > previous.revision.value
          else
            && p.cause.Response? && p.cause.name == REGISTRY_COMMAND
            && p.next.bootEpoch.Some? && p.next.bootEpoch.value != ""
            && BootChanges(log[..p.cause.issuedAt]) == BootChanges(log[..i]))
  }

  predicate LogInvariant(s: System) {
    && s.client.projection == (if s.log == [] then None else Some(s.log[|s.log| - 1].next))
    && s.client.epochVersion == BootChanges(s.log)
    && (forall i | 0 <= i < |s.log| :: Justified(s.log, i))
    && (forall id <- s.pending ::
          s.pending[id].issuedAt <= |s.log| && s.pending[id].version == BootChanges(s.log[..s.pending[id].issuedAt]))
  }

  /** Receipts are in owner order, match the owner they were taken under, and under one owner the
      sequence numbers of a session rise up to its cursor. */
  predicate ReceiptInvariant(s: System) {
    && s.owners != [] && s.owners[|s.owners| - 1] == OwnerKeyOf(s.client.projection)
    && (forall i | 0 <= i < |s.receipts| ::
          0 <= s.receipts[i].ownerAt < |s.owners| && OwnedBy(s.owners[s.receipts[i].ownerAt], s.receipts[i].session))
    && (forall i, j | 0 <= i < j < |s.receipts| :: s.receipts[i].ownerAt <= s.receipts[j].ownerAt)
    && (forall i, j | 0 <= i < j < |s.receipts|
            && s.receipts[i].session == s.receipts[j].session && s.receipts[i].ownerAt == s.receipts[j].ownerAt ::
          s.receipts[i].sequence < s.receipts[j].sequence)
    && (forall i | 0 <= i < |s.receipts| && s.receipts[i].ownerAt == |s.owners| - 1 ::
          var r := s.receipts[i];
          r.session in s.client.sequences && r.sequence <= s.client.sequences[r.session])
  }

  /** Every cursor is the positive number of a frame yielded to its session under the current owner. */
  ghost predicate CursorInvariant(s: System) {
    forall session <- s.client.sequences ::
      s.client.sequences[session] > 0 && YieldedNow(s, session, s.client.sequences[session])
  }

  /** The session was yielded this number under the current owner. */
  ghost predicate YieldedNow(s: System, session: Session, sequence: int) {
    Receipt(session, sequence, |s.owners| - 1) in s.receipts
  }

  lemma BootChangesPrefix(log: seq<Publication>, p: Publication, at: nat)
    requires at <= |log|
    ensures (log + [p])[..at] == log[..at]
    ensures BootChanges(log + [p]) ==
            BootChanges(log) + if log == [] || p.next.bootEpoch != log[|log| - 1].next.bootEpoch then 1 else 0
  {
    var longer := log + [p];
    assert longer[..|log|] == log && longer[|log|] == p;
    assert log != [] ==> longer[|log| - 1] == log[|log| - 1];
    assert BootChanges(longer) ==
           BootChanges(longer[..|log|])
           + if log == [] || p.next.bootEpoch != log[|log| - 1].next.bootEpoch then 1 else 0;
    hide BootChanges;
    assert longer[..at] == log[..at];
  }

  lemma JustifiedExtends(log: seq<Publication>, p: Publication, i: nat)
    requires i < |log| && Justified(log, i)
    ensures Justified(log + [p], i)
  {
    hide BootChanges;
    assert (log + [p])[..i] == log[..i];
    if log[i].cause.Response? {
      assert (log + [p])[..log[i].cause.issuedAt] == log[..log[i].cause.issuedAt];
    }
  }

  /** Publishing keeps the log invariant when the publication is justified. */
  lemma RecordKeepsLog(s: System, next: Projection, cause: Cause)
    requires LogInvariant(s)
    requires Justified(s.log + [Publication(next, cause)], |s.log|)
    ensures var c := Published(s.client, next);
            LogInvariant(s.(client := c, log := s.log + [Publication(next, cause)]))
  {
    var p := Publication(next, cause);
    BootChangesPrefix(s.log, p, |s.log|);
    forall i | 0 <= i < |s.log| ensures Justified(s.log + [p], i) {
      JustifiedExtends(s.log, p, i);
    }
    forall id | id in s.pending ensures (s.log + [p])[..s.pending[id].issuedAt] == s.log[..s.pending[id].issuedAt] {
    }
  }

  lemma AppliedJustified(s: System, next: Projection, cause: Cause)
    requires LogInvariant(s) && Applicable(s.client, next)
    requires cause.Response? ==> cause.issuedAt <= |s.log|
    ensures Justified(s.log + [Publication(next, cause)], |s.log|)
  {
  }

  lemma EstablishedJustified(s: System, next: Projection, p: Pending)
    requires LogInvariant(s) && EstablishesBoot(s.client, p.name, next)
    requires p.issuedAt <= |s.log| && p.version == BootChanges(s.log[..p.issuedAt])
    requires p.version == s.client.epochVersion
    ensures Justified(s.log + [Publication(next, Response(p.name, p.issuedAt))], |s.log|)
  {
    var log := s.log + [Publication(next, Response(p.name, p.issuedAt))];
    assert log[..p.issuedAt] == s.log[..p.issuedAt] && log[..|s.log|] == s.log;
  }

  lemma PublishedDiffers(c: Client, next: Projection)
    requires Applicable(c, next) || EstablishesBoot(c, REGISTRY_COMMAND, next)
    ensures Published(c, next) != c
  {
  }

  lemma StepKeepsLog(s: System, step: Step)
    requires LogInvariant(s)
    ensures LogInvariant(Exec(s, step))
  {
    match step
    case Issue(id, name) =>
      assert s.log[..|s.log|] == s.log;
    case Reject(id) =>
    case Arrive(session, frame) =>
    case Apply(next) =>
      if Applicable(s.client, next) {
        AppliedJustified(s, next, Direct);
        PublishedDiffers(s.client, next);
        RecordKeepsLog(s, next, Direct);
      }
    case Respond(id, next) =>
      if id in s.pending {
        ResponseKeepsLog(s, id, next);
      }
  }

  lemma ResponseKeepsLog(s: System, id: nat, next: Projection)
    requires LogInvariant(s) && id in s.pending
    ensures LogInvariant(Exec(s, Respond(id, next)))
  {
    var p := s.pending[id];
    var t := s.(pending := s.pending - {id});
    var cause := Response(p.name, p.issuedAt);
    var c := Responded(s.client, p.name, p.version, next);
    if c != s.client {
      if EstablishesBoot(s.client, p.name, next) {
        EstablishedJustified(t, next, p);
      } else {
        AppliedJustified(t, next, cause);
      }
      RecordKeepsLog(t, next, cause);
    }
  }

  lemma RecordKeepsReceipts(s: System, next: Projection, cause: Cause)
    requires ReceiptInvariant(s) && Published(s.client, next) != s.client
    ensures ReceiptInvariant(Record(s, Published(s.client, next), cause))
  {
  }

  lemma ResponseKeepsReceipts(s: System, id: nat, next: Projection)
    requires ReceiptInvariant(s) && id in s.pending
    ensures ReceiptInvariant(Exec(s, Respond(id, next)))
  {
    var p := s.pending[id];
    if Responded(s.client, p.name, p.version, next) != s.client {
      RecordKeepsReceipts(s.(pending := s.pending - {id}), next, Response(p.name, p.issuedAt));
    }
  }

  lemma StepKeepsReceipts(s: System, step: Step)
    requires ReceiptInvariant(s)
    ensures ReceiptInvariant(Exec(s, step))
  {
    match step
    case Issue(_, _) =>
    case Reject(_) =>
    case Apply(next) =>
      if Applicable(s.client, next) {
        hide ReceiptInvariant;
        PublishedDiffers(s.client, next);
        RecordKeepsReceipts(s, next, Direct);
      }
    case Respond(id, next) =>
      if id in s.pending {
        ResponseKeepsReceipts(s, id, next);
      }
    case Arrive(session, frame) =>
      ArrivalKeepsReceipts(s, session, frame);
  }

  lemma ReceiptAppended(receipts: seq<Receipt>, r: Receipt)
    requires forall i, j | 0 <= i < j < |receipts| :: receipts[i].ownerAt <= receipts[j].ownerAt
    requires forall i, j | 0 <= i < j < |receipts|
               && receipts[i].session == receipts[j].session && receipts[i].ownerAt == receipts[j].ownerAt ::
               receipts[i].sequence < receipts[j].sequence
    requires forall i | 0 <= i < |receipts| :: receipts[i].ownerAt <= r.ownerAt
    requires forall i | 0 <= i < |receipts| && receipts[i].session == r.session && receipts[i].ownerAt == r.ownerAt ::
               receipts[i].sequence < r.sequence
    ensures var all := receipts + [r];
            && (forall i, j | 0 <= i < j < |all| :: all[i].ownerAt <= all[j].ownerAt)
            && (forall i, j | 0 <= i < j < |all|
                  && all[i].session == all[j].session && all[i].ownerAt == all[j].ownerAt ::
                  all[i].sequence < all[j].sequence)
  {
  }

  lemma ArrivalKeepsReceipts(s: System, session: Session, frame: Frame)
    requires ReceiptInvariant(s)
    ensures ReceiptInvariant(Exec(s, Arrive(session, frame)))
  {
    if DeliveryOf(s.client, session, frame).Yielded? {
      assert OwnedBy(s.owners[|s.owners| - 1], session);
      hide OwnedBy, OwnerKeyOf;
      ReceiptAppended(s.receipts, Receipt(session, frame.sequence, |s.owners| - 1));
    }
  }

  lemma {:induction false} RunInvariant(steps: seq<Step>)
    ensures LogInvariant(Run(steps)) && ReceiptInvariant(Run(steps))
    decreases |steps|
  {
    if steps != [] {
      var before := steps[..|steps| - 1];
      RunInvariant(before);
      StepKeepsLog(Run(before), steps[|steps| - 1]);
      StepKeepsReceipts(Run(before), steps[|steps| - 1]);
    }
  }

  // ----- which frames are yielded -----

  lemma PublishedKeepsCursors(s: System, next: Projection, cause: Cause)
    requires ReceiptInvariant(s) && CursorInvariant(s) && Published(s.client, next) != s.client
    ensures CursorInvariant(Record(s, Published(s.client, next), cause))
  {
    var t := Record(s, Published(s.client, next), cause);
    assert t.client.sequences == s.client.sequences || t.client.sequences == map[];
    assert t.client.sequences != map[] ==> t.owners == s.owners && t.receipts == s.receipts;
    hide ReceiptInvariant, Published;
    forall session <- t.client.sequences
      ensures t.client.sequences[session] > 0 && YieldedNow(t, session, t.client.sequences[session])
    {
      assert YieldedNow(s, session, s.client.sequences[session]);
    }
  }

  lemma ArrivalKeepsCursors(s: System, session: Session, frame: Frame)
    requires CursorInvariant(s)
    ensures CursorInvariant(Exec(s, Arrive(session, frame)))
  {
    var t := Exec(s, Arrive(session, frame));
    hide OwnedBy, OwnerKeyOf;
    if DeliveryOf(s.client, session, frame).Yielded? {
      forall other <- t.client.sequences
        ensures t.client.sequences[other] > 0 && YieldedNow(t, other, t.client.sequences[other])
      {
        if other != session {
          assert YieldedNow(s, other, s.client.sequences[other]);
        } else if session in s.client.sequences {
          assert YieldedNow(s, session, s.client.sequences[session]);
        }
      }
    }
  }

  lemma StepKeepsCursors(s: System, step: Step)
    requires ReceiptInvariant(s) && CursorInvariant(s)
    ensures CursorInvariant(Exec(s, step))
  {
    match step
    case Arrive(session, frame) =>
      ArrivalKeepsCursors(s, session, frame);
    case Apply(next) =>
      if Applicable(s.client, next) {
        PublishedDiffers(s.client, next);
        hide CursorInvariant, ReceiptInvariant;
        PublishedKeepsCursors(s, next, Direct);
      }
    case Respond(id, next) =>
      if id in s.pending {
        var p := s.pending[id];
        var t := s.(pending := s.pending - {id});
        assert forall session, n :: YieldedNow(t, session, n) <==> YieldedNow(s, session, n);
        if Responded(s.client, p.name, p.version, next) != s.client {
          PublishedKeepsCursors(t, next, Response(p.name, p.issuedAt));
        }
      }
    case _ =>
      var t := Exec(s, step);
      assert forall session, n :: YieldedNow(t, session, n) <==> YieldedNow(s, session, n);
  }

  lemma {:induction false} RunCursors(steps: seq<Step>)
    ensures ReceiptInvariant(Run(steps)) && CursorInvariant(Run(steps))
    decreases |steps|
  {
    RunInvariant(steps);
    hide LogInvariant;
    if steps != [] {
      var before := steps[..|steps| - 1];
      RunCursors(before);
      StepKeepsCursors(Run(before), steps[|steps| - 1]);
      hide Exec, ReceiptInvariant, CursorInvariant;
    }
  }

  /** The snapshot published last gives the slot to the session's add-on, available, in its boot and generation. */
  ghost predicate HoldsSlot(s: System, session: Session) {
    s.log != [] &&
    var p := s.log[|s.log| - 1].next;
    p.bootEpoch == Some(session.bootEpoch) && p.primaryAgent.Some? && p.primaryAgent.value.available
    && p.primaryAgent.value.addonId == Some(session.addonId) && p.primaryAgent.value.generation == session.generation
  }

  /** The session holds the slot, the frame is the session's own, and its number is safe, positive, and above
      every number yielded to the session under this owner. */
  ghost predicate FreshFrame(s: System, session: Session, frame: Frame) {
    && HoldsSlot(s, session)
    && frame.provenance == session && 0 < frame.sequence <= MAX_SAFE_INTEGER
    && forall r <- s.receipts | r.session == session && r.ownerAt == |s.owners| - 1 :: r.sequence < frame.sequence
  }

  lemma SlotIsOwner(s: System, session: Session)
    requires LogInvariant(s)
    ensures HoldsSlot(s, session) <==> OwnedBy(OwnerKeyOf(s.client.projection), session)
  {
    hide Justified, BootChanges;
  }

  /** The cursor is above exactly the numbers that are not fresh. */
  lemma CursorTellsFresh(s: System, session: Session, frame: Frame)
    requires ReceiptInvariant(s) && CursorInvariant(s) && frame.provenance == session && HoldsSlot(s, session)
    ensures FreshFrame(s, session, frame) <==>
            SafeInteger(frame.sequence)
            && frame.sequence > if session in s.client.sequences then s.client.sequences[session] else 0
  {
    hide HoldsSlot, OwnedBy, OwnerKeyOf;
    if session in s.client.sequences {
      assert YieldedNow(s, session, s.client.sequences[session]);
    }
    forall r <- s.receipts | r.session == session && r.ownerAt == |s.owners| - 1
      ensures session in s.client.sequences && r.sequence <= s.client.sequences[session]
    {
      var i :| 0 <= i < |s.receipts| && s.receipts[i] == r;
    }
  }

  lemma DeliveryIsFresh(s: System, session: Session, frame: Frame)
    requires ReceiptInvariant(s) && CursorInvariant(s) && LogInvariant(s)
    ensures var delivery := DeliveryOf(s.client, session, frame);
            && (delivery.Ended? <==> !HoldsSlot(s, session))
            && (delivery.Yielded? <==> FreshFrame(s, session, frame))
  {
    SlotIsOwner(s, session);
    hide ReceiptInvariant, LogInvariant, CursorInvariant, OwnedBy, OwnerKeyOf, HoldsSlot;
    if HoldsSlot(s, session) && frame.provenance == session {
      CursorTellsFresh(s, session, frame);
      hide FreshFrame;
    }
  }

  /** In every run a reader ends exactly when its session's add-on does not hold the slot, and otherwise
      yields exactly the fresh frames. */
  lemma FreshFramesYielded(steps: seq<Step>, session: Session, frame: Frame)
    ensures var s := Run(steps); var delivery := DeliveryOf(s.client, session, frame);
            && (delivery.Ended? <==> !HoldsSlot(s, session))
            && (delivery.Yielded? <==> FreshFrame(s, session, frame))
    ensures var s := Run(steps);
            Exec(s, Arrive(session, frame)).receipts ==
            s.receipts + if FreshFrame(s, session, frame)
                         then [Receipt(session, frame.sequence, |s.owners| - 1)] else []
  {
    RunInvariant(steps);
    RunCursors(steps);
    hide Run, ReceiptInvariant, LogInvariant, CursorInvariant, HoldsSlot, FreshFrame, DeliveryOf;
    DeliveryIsFresh(Run(steps), session, frame);
  }

  // ----- at most once -----

  /** Between two owner changes a session's yielded sequence numbers strictly increase, whatever
      readers and publications interleave, and each was taken under a matching owner. */
  lemma AtMostOnce(steps: seq<Step>, i: nat, j: nat)
    requires i < j < |Run(steps).receipts|
    ensures var s := Run(steps);
            var r, t := s.receipts[i], s.receipts[j];
            && 0 <= r.ownerAt <= t.ownerAt < |s.owners|
            && OwnedBy(s.owners[r.ownerAt], r.session) && OwnedBy(s.owners[t.ownerAt], t.session)
            && (r.session == t.session && r.ownerAt == t.ownerAt ==> r.sequence < t.sequence)
  {
    RunInvariant(steps);
  }

  /** Some session can hold under this key. */
  predicate Matchable(key: OwnerKey) {
    key.boot.Some? && key.addonId.Some? && key.generation.Some? && key.available == Some(true)
  }

  /** The host never gives the slot back to an add-on in a boot and generation it has left. */
  predicate OwnersNotReused(owners: seq<OwnerKey>) {
    forall i: nat, j: nat | i < j < |owners| && Matchable(owners[i]) :: owners[i] != owners[j]
  }

  /** With such a host, at most once over the whole run. */
  lemma AtMostOnceForever(steps: seq<Step>, i: nat, j: nat)
    requires OwnersNotReused(Run(steps).owners)
    requires i < j < |Run(steps).receipts| && Run(steps).receipts[i].session == Run(steps).receipts[j].session
    ensures Run(steps).receipts[i].sequence < Run(steps).receipts[j].sequence
  {
    AtMostOnce(steps, i, j);
    var s := Run(steps);
    var a: nat, b: nat := s.receipts[i].ownerAt, s.receipts[j].ownerAt;
    assert s.owners[a] == s.owners[b] && Matchable(s.owners[a]);
  }

  /** The steps without the frames that arrive: what the host and the commands do. */
  function Quiet(steps: seq<Step>): seq<Step> {
    if steps == [] then []
    else Quiet(steps[..|steps| - 1]) + if steps[|steps| - 1].Arrive? then [] else [steps[|steps| - 1]]
  }

  predicate NoArrivals(steps: seq<Step>) {
    forall step <- steps :: !step.Arrive?
  }

  predicate Rising(receipts: seq<Receipt>) {
    forall i: nat, j: nat | i < j < |receipts| && receipts[i].session == receipts[j].session ::
      receipts[i].sequence < receipts[j].sequence
  }

  /** Whatever frames arrive, and whenever, during this history, no session's sequence numbers repeat. */
  ghost predicate NeverRepeats(history: seq<Step>) {
    forall steps: seq<Step> | Quiet(steps) == history :: Rising(Run(steps).receipts)
  }

  /** Systems that differ in cursors and receipts only. */
  predicate SameHistory(s: System, t: System) {
    && s.client.projection == t.client.projection && s.client.epochVersion == t.client.epochVersion
    && s.pending == t.pending && s.log == t.log && s.owners == t.owners
  }

  lemma PublishedSame(s: System, t: System, next: Projection, cause: Cause)
    requires SameHistory(s, t)
    requires Applicable(s.client, next) || EstablishesBoot(s.client, REGISTRY_COMMAND, next)
    ensures SameHistory(Record(s, Published(s.client, next), cause), Record(t, Published(t.client, next), cause))
  {
    PublishedDiffers(s.client, next);
    PublishedDiffers(t.client, next);
  }

  lemma StepSame(s: System, t: System, step: Step)
    requires SameHistory(s, t) && !step.Arrive?
    ensures SameHistory(Exec(s, step), Exec(t, step))
  {
    match step
    case Apply(next) =>
      if Applicable(s.client, next) {
        PublishedSame(s, t, next, Direct);
      }
    case Respond(id, next) =>
      if id in s.pending {
        var p := s.pending[id];
        var u, v := s.(pending := s.pending - {id}), t.(pending := t.pending - {id});
        if Responded(s.client, p.name, p.version, next) != s.client {
          PublishedSame(u, v, next, Response(p.name, p.issuedAt));
        }
      }
    case _ =>
  }

  lemma ArrivalSame(s: System, t: System, step: Step)
    requires SameHistory(s, t) && step.Arrive?
    ensures SameHistory(Exec(s, step), t)
  {
  }

  lemma QuietStep(before: seq<Step>, last: Step)
    ensures Run(before + [last]) == Exec(Run(before), last)
    ensures Run(Quiet(before + [last])) ==
            if last.Arrive? then Run(Quiet(before)) else Exec(Run(Quiet(before)), last)
  {
    assert (before + [last])[..|before|] == before;
    assert Quiet(before + [last]) == if last.Arrive? then Quiet(before) else Quiet(before) + [last];
    hide Quiet, Exec;
    RunAppend(before, last);
    RunAppend(Quiet(before), last);
    hide Run;
  }

  lemma {:induction false} QuietRunSame(steps: seq<Step>)
    ensures SameHistory(Run(steps), Run(Quiet(steps)))
    decreases |steps|
  {
    if steps != [] {
      var before, last := steps[..|steps| - 1], steps[|steps| - 1];
      assert steps == before + [last];
      hide *;
      QuietRunSame(before);
      QuietStep(before, last);
      if last.Arrive? {
        ArrivalSame(Run(before), Run(Quiet(before)), last);
      } else {
        StepSame(Run(before), Run(Quiet(before)), last);
      }
    } else {
      NothingRunSame();
    }
  }

  lemma NothingRunSame()
    ensures SameHistory(Run([]), Run(Quiet([])))
  {
  }

  lemma {:induction false} QuietConcat(a: seq<Step>, b: seq<Step>)
    ensures Quiet(a + b) == Quiet(a) + Quiet(b)
    decreases |b|
  {
    if b == [] {
      assert a + b == a;
    } else {
      var n := |b| - 1;
      QuietConcat(a, b[..n]);
      assert (a + b)[..|a + b| - 1] == a + b[..n];
    }
  }

  lemma {:induction false} QuietIsAll(history: seq<Step>)
    requires NoArrivals(history)
    ensures Quiet(history) == history
    decreases |history|
  {
    if history != [] {
      QuietIsAll(history[..|history| - 1]);
      assert history == history[..|history| - 1] + [history[|history| - 1]];
    }
  }

  lemma StepYieldsNothing(s: System, step: Step)
    requires !step.Arrive?
    ensures Exec(s, step).receipts == s.receipts
  {
  }

  /** Without arrivals nothing more is yielded. */
  lemma {:induction false} QuietYieldsNothing(steps: seq<Step>, history: seq<Step>)
    requires NoArrivals(history)
    ensures Run(steps + history).receipts == Run(steps).receipts
    decreases |history|
  {
    hide Run, Exec;
    if history == [] {
      assert steps + history == steps;
    } else {
      var n := |history| - 1;
      QuietYieldsNothing(steps, history[..n]);
      assert steps + history == (steps + history[..n]) + [history[n]];
      RunAppend(steps + history[..n], history[n]);
      StepYieldsNothing(Run(steps + history[..n]), history[n]);
    }
  }

  /** A publication that brings a new owner leaves every cursor at its start. */
  lemma NewOwnerClearsCursors(s: System, step: Step)
    requires s.owners != [] && s.owners[|s.owners| - 1] == OwnerKeyOf(s.client.projection)
    requires Exec(s, step).owners != s.owners
    ensures Exec(s, step).client.sequences == map[]
    ensures Exec(s, step).owners == s.owners + [OwnerKeyOf(Exec(s, step).client.projection)]
  {
  }

  lemma OwnerStep(steps: seq<Step>, step: Step)
    requires Exec(Run(steps), step).owners != Run(steps).owners
    ensures var s, t := Run(steps), Exec(Run(steps), step);
            && s.owners != [] && t.owners == s.owners + [OwnerKeyOf(t.client.projection)]
            && t.client.sequences == map[]
  {
    RunInvariant(steps);
    NewOwnerClearsCursors(Run(steps), step);
    hide Run, Exec;
  }

  /** A step appends at most one owner. */
  lemma OwnersAfter(steps: seq<Step>, step: Step)
    ensures var before, after := Run(steps).owners, Run(steps + [step]).owners;
            before != [] && (after == before || (|after| == |before| + 1 && after[..|before|] == before))
  {
    RunInvariant(steps);
    RunAppend(steps, step);
    hide Run, Exec, LogInvariant;
    if Exec(Run(steps), step).owners != Run(steps).owners {
      OwnerStep(steps, step);
    }
  }

  lemma StartOwners()
    ensures |Run([]).owners| == 1
  {
  }

  /** The step that appended the i-th owner. */
  lemma {:induction false} OwnerAppended(history: seq<Step>, i: nat) returns (at: nat)
    requires 0 < i < |Run(history).owners|
    ensures at < |history|
    ensures Run(history[..at]).owners == Run(history).owners[..i]
    ensures Run(history[..at + 1]).owners == Run(history).owners[..i + 1]
    decreases |history|
  {
    hide Run;
    StartOwners();
    assert history != [];
    var n: nat := |history| - 1;
    assert history == history[..n] + [history[n]];
    OwnersAfter(history[..n], history[n]);
    if i < |Run(history[..n]).owners| {
      at := OwnerAppended(history[..n], i);
      assert history[..n][..at] == history[..at] && history[..n][..at + 1] == history[..at + 1];
    } else {
      at := n;
      assert history[..n + 1] == history;
    }
  }

  function FirstFrameOf(session: Session): Step {
    Arrive(session, Frame(session, 1, 0))
  }

  lemma ArrivalYields(s: System, session: Session)
    requires OwnedBy(OwnerKeyOf(s.client.projection), session) && s.client.sequences == map[]
    ensures Exec(s, FirstFrameOf(session)).receipts == s.receipts + [Receipt(session, 1, |s.owners| - 1)]
  {
    hide OwnedBy, OwnerKeyOf;
  }

  /** After a step that brought the session's own add-on into the slot, its first frame is yielded. */
  lemma FirstFrameYielded(steps: seq<Step>, step: Step, session: Session)
    requires Exec(Run(steps), step).owners != Run(steps).owners && !step.Arrive?
    requires OwnedBy(OwnerKeyOf(Exec(Run(steps), step).client.projection), session)
    ensures Run(steps + [step] + [FirstFrameOf(session)]).receipts ==
            Run(steps).receipts + [Receipt(session, 1, |Run(steps).owners|)]
  {
    hide Run, Exec, FirstFrameOf, OwnedBy, OwnerKeyOf;
    OwnerStep(steps, step);
    RunAppend(steps, step);
    RunAppend(steps + [step], FirstFrameOf(session));
    StepYieldsNothing(Run(steps), step);
    ArrivalYields(Run(steps + [step]), session);
  }

  /** The history up to `b`, with the session's first frame arriving right after step `a` ... */
  function OnceArrived(history: seq<Step>, a: nat, b: nat, session: Session): seq<Step>
    requires a < b < |history|
  {
    history[..a + 1] + [FirstFrameOf(session)] + history[a + 1..b]
  }

  /** ... and the whole history, with the same frame arriving again right after step `b`. */
  function TwiceArrived(history: seq<Step>, a: nat, b: nat, session: Session): seq<Step>
    requires a < b < |history|
  {
    OnceArrived(history, a, b, session) + [history[b]] + [FirstFrameOf(session)] + history[b + 1..]
  }

  lemma QuietInsertion(before: seq<Step>, session: Session, after: seq<Step>)
    requires NoArrivals(after)
    ensures Quiet(before + [FirstFrameOf(session)] + after) == Quiet(before) + after
  {
    QuietArrival(before, session);
    QuietIsAll(after);
    hide Quiet;
    QuietConcat(before + [FirstFrameOf(session)], after);
  }

  lemma QuietArrival(before: seq<Step>, session: Session)
    ensures Quiet(before + [FirstFrameOf(session)]) == Quiet(before)
  {
    assert (before + [FirstFrameOf(session)])[..|before|] == before;
  }

  lemma OnceArrivedQuiet(history: seq<Step>, a: nat, b: nat, session: Session)
    requires a < b < |history| && NoArrivals(history)
    ensures Quiet(OnceArrived(history, a, b, session)) == history[..b]
  {
    QuietIsAll(history[..a + 1]);
    QuietInsertion(history[..a + 1], session, history[a + 1..b]);
    hide Quiet;
    assert history[..a + 1] + history[a + 1..b] == history[..b];
  }

  lemma TwiceArrivedQuiet(history: seq<Step>, a: nat, b: nat, session: Session)
    requires a < b < |history| && NoArrivals(history)
    ensures Quiet(TwiceArrived(history, a, b, session)) == history
  {
    var once := OnceArrived(history, a, b, session);
    OnceArrivedQuiet(history, a, b, session);
    QuietConcat(once, [history[b]]);
    QuietIsAll([history[b]]);
    QuietInsertion(once + [history[b]], session, history[b + 1..]);
    hide Quiet, OnceArrived;
    assert history[..b] + [history[b]] + history[b + 1..] == history;
  }

  lemma {:induction false} OwnersGrow(history: seq<Step>, m: nat, n: nat)
    requires m <= n <= |history|
    ensures Run(history[..m]).owners <= Run(history[..n]).owners
    decreases n
  {
    if m < n {
      OwnersGrow(history, m, n - 1);
      var before, step := history[..n - 1], history[n - 1];
      assert history[..n] == before + [step];
      RunAppend(before, step);
      if Exec(Run(before), step).owners != Run(before).owners {
        OwnerStep(before, step);
      }
      hide Exec, Run;
    }
  }

  lemma FirstOwner(history: seq<Step>)
    ensures Run(history).owners != [] && Run(history).owners[0] == OwnerKeyOf(None)
  {
    OwnersGrow(history, 0, |history|);
    assert history[..|history|] == history;
    assert Run(history[..0]) == START;
    hide Run;
  }

  /** The step at this position gave the slot to the session's add-on, in its boot and generation. */
  ghost predicate GivesSlot(history: seq<Step>, at: nat, session: Session) {
    && at < |history|
    && var before, after := Run(history[..at]), Run(history[..at + 1]);
       before.owners != after.owners && after.owners != []
       && OwnedBy(after.owners[|after.owners| - 1], session)
  }

  lemma GivenStep(history: seq<Step>, at: nat, session: Session)
    requires GivesSlot(history, at, session)
    ensures var s, t := Run(history[..at]), Exec(Run(history[..at]), history[at]);
            t.owners != s.owners && OwnedBy(OwnerKeyOf(t.client.projection), session)
  {
    var step := history[at];
    assert history[..at + 1] == history[..at] + [step];
    RunAppend(history[..at], step);
    hide Run, Exec, OwnedBy, OwnerKeyOf;
    OwnerStep(history[..at], step);
  }

  lemma SlotStep(history: seq<Step>, at: nat, session: Session, steps: seq<Step>)
    requires GivesSlot(history, at, session) && NoArrivals(history) && Quiet(steps) == history[..at]
    ensures !history[at].Arrive?
    ensures Exec(Run(steps), history[at]).owners != Run(steps).owners
    ensures OwnedBy(OwnerKeyOf(Exec(Run(steps), history[at]).client.projection), session)
  {
    var step := history[at];
    assert step in history;
    GivenStep(history, at, session);
    hide Run, Exec, NoArrivals, OwnedBy, OwnerKeyOf, GivesSlot, Quiet;
    QuietRunSame(steps);
    StepSame(Run(steps), Run(history[..at]), step);
  }

  /** After the step that gives the slot, the session's first frame is yielded, whatever arrived before. */
  lemma SlotFrameYielded(history: seq<Step>, at: nat, session: Session, steps: seq<Step>)
    requires GivesSlot(history, at, session) && NoArrivals(history) && Quiet(steps) == history[..at]
    ensures Run(steps + [history[at]] + [FirstFrameOf(session)]).receipts ==
            Run(steps).receipts + [Receipt(session, 1, |Run(steps).owners|)]
  {
    SlotStep(history, at, session, steps);
    hide Run, Exec, GivesSlot, NoArrivals, OwnedBy, OwnerKeyOf, Quiet;
    FirstFrameYielded(steps, history[at], session);
  }

  lemma QuietPrefix(history: seq<Step>, at: nat)
    requires NoArrivals(history) && at <= |history|
    ensures Quiet(history[..at]) == history[..at] && Run(history[..at]).receipts == []
  {
    QuietIsAll(history[..at]);
    assert Run([]).receipts == [];
    hide Run, Quiet;
    QuietYieldsNothing([], history[..at]);
    assert [] + history[..at] == history[..at];
  }

  lemma OnceYielded(history: seq<Step>, a: nat, b: nat, session: Session)
    requires NoArrivals(history) && a < b < |history| && GivesSlot(history, a, session)
    ensures var receipts := Run(OnceArrived(history, a, b, session)).receipts;
            |receipts| == 1 && receipts[0].session == session && receipts[0].sequence == 1
  {
    hide Run, GivesSlot, Quiet, FirstFrameOf;
    QuietPrefix(history, a);
    SlotFrameYielded(history, a, session, history[..a]);
    assert history[..a] + [history[a]] == history[..a + 1];
    QuietYieldsNothing(history[..a + 1] + [FirstFrameOf(session)], history[a + 1..b]);
  }

  lemma TwiceYielded(history: seq<Step>, a: nat, b: nat, session: Session)
    requires NoArrivals(history) && a < b
    requires GivesSlot(history, a, session) && GivesSlot(history, b, session)
    ensures !Rising(Run(TwiceArrived(history, a, b, session)).receipts)
  {
    var once := OnceArrived(history, a, b, session);
    OnceYielded(history, a, b, session);
    OnceArrivedQuiet(history, a, b, session);
    SlotFrameYielded(history, b, session, once);
    hide Run, GivesSlot, Quiet, OnceArrived;
    QuietYieldsNothing(once + [history[b]] + [FirstFrameOf(session)], history[b + 1..]);
    var receipts := Run(TwiceArrived(history, a, b, session)).receipts;
    var zero: nat, one: nat := 0, 1;
    assert receipts[zero].session == receipts[one].session && receipts[zero].sequence == receipts[one].sequence;
  }

  lemma AppendedInOrder(history: seq<Step>, a: nat, b: nat, i: nat, j: nat)
    requires a < |history| && b < |history| && i < j < |Run(history).owners|
    requires Run(history[..a]).owners == Run(history).owners[..i]
    requires Run(history[..b]).owners == Run(history).owners[..j]
    ensures a < b
  {
    hide Run;
    if b <= a {
      OwnersGrow(history, b, a);
    }
  }

  lemma PositionGivesSlot(history: seq<Step>, at: nat, i: nat, session: Session)
    requires at < |history| && i < |Run(history).owners| && OwnedBy(Run(history).owners[i], session)
    requires Run(history[..at]).owners == Run(history).owners[..i]
    requires Run(history[..at + 1]).owners == Run(history).owners[..i + 1]
    ensures GivesSlot(history, at, session)
  {
    hide Run, OwnedBy;
  }

  /** Where an owner that comes back got the slot first and again. */
  lemma ReusePositions(history: seq<Step>, i: nat, j: nat) returns (a: nat, b: nat, session: Session)
    requires i < j < |Run(history).owners|
    requires Matchable(Run(history).owners[i]) && Run(history).owners[i] == Run(history).owners[j]
    ensures a < b && GivesSlot(history, a, session) && GivesSlot(history, b, session)
  {
    hide Run, GivesSlot;
    var key := Run(history).owners[i];
    session := Session(key.boot.value, key.addonId.value, "s", key.generation.value);
    assert OwnedBy(key, session);
    FirstOwner(history);
    assert i > 0;
    hide *;
    a := OwnerAppended(history, i);
    b := OwnerAppended(history, j);
    AppendedInOrder(history, a, b, i, j);
    PositionGivesSlot(history, a, i, session);
    PositionGivesSlot(history, b, j, session);
  }

  /** If an owner some session can hold under comes back, the session's first frame can be yielded twice. */
  lemma ReuseRepeats(history: seq<Step>, i: nat, j: nat) returns (steps: seq<Step>)
    requires NoArrivals(history) && i < j < |Run(history).owners|
    requires Matchable(Run(history).owners[i]) && Run(history).owners[i] == Run(history).owners[j]
    ensures Quiet(steps) == history && !Rising(Run(steps).receipts)
  {
    var a, b, session := ReusePositions(history, i, j);
    assert b < |history|;
    hide Run, GivesSlot, Rising, Quiet, TwiceArrived;
    steps := TwiceArrived(history, a, b, session);
    TwiceArrivedQuiet(history, a, b, session);
    TwiceYielded(history, a, b, session);
  }

  /** At most once over the whole run, whatever frames arrive, exactly when the history never gives the slot
      back to an owner some session can hold under. */
  lemma NeverRepeatsExactly(history: seq<Step>)
    requires NoArrivals(history)
    ensures NeverRepeats(history) <==> OwnersNotReused(Run(history).owners)
  {
    if OwnersNotReused(Run(history).owners) {
      forall steps: seq<Step> | Quiet(steps) == history
        ensures Rising(Run(steps).receipts)
      {
        QuietRunSame(steps);
        hide Run, OwnersNotReused;
        forall i: nat, j: nat | i < j < |Run(steps).receipts|
            && Run(steps).receipts[i].session == Run(steps).receipts[j].session
          ensures Run(steps).receipts[i].sequence < Run(steps).receipts[j].sequence
        {
          AtMostOnceForever(steps, i, j);
        }
      }
    } else {
      hide Run;
      var owners := Run(history).owners;
      var i: nat, j: nat :| i < j < |owners| && Matchable(owners[i]) && owners[i] == owners[j];
      var steps := ReuseRepeats(history, i, j);
    }
  }

  /** Without that promise a frame can be yielded twice: the slot is taken away and given back. */
  lemma ReuseRepeatsFrame(session: Session, frame: Frame)
    requires frame.provenance == session && 0 < frame.sequence <= MAX_SAFE_INTEGER
    ensures var held := Some(Owner(Some(session.addonId), session.generation, true));
            var boot := Some(session.bootEpoch);
            var steps := [
              Apply(Projection(boot, Some(1), held, 0)), Arrive(session, frame),
              Apply(Projection(boot, Some(2), None, 0)),
              Apply(Projection(boot, Some(3), held, 0)), Arrive(session, frame)];
            Run(steps).receipts == [Receipt(session, frame.sequence, 1), Receipt(session, frame.sequence, 3)]
  {
    var held := Some(Owner(Some(session.addonId), session.generation, true));
    var boot := Some(session.bootEpoch);
    var first, last := Projection(boot, Some(1), held, 0), Projection(boot, Some(3), held, 0);
    var vacant := Projection(boot, Some(2), None, 0);
    var steps := [Apply(first), Arrive(session, frame), Apply(vacant), Apply(last), Arrive(session, frame)];
    var s1 := Exec(START, steps[0]);
    assert s1.client == Client(Some(first), 1, map[]) && s1.owners == [OwnerKeyOf(None), OwnerKeyOf(Some(first))];
    var s2 := Exec(s1, steps[1]);
    assert s2.receipts == [Receipt(session, frame.sequence, 1)];
    var s3 := Exec(s2, steps[2]);
    assert s3.client == Client(Some(vacant), 1, map[]) && |s3.owners| == 3;
    var s4 := Exec(s3, steps[3]);
    assert s4.client == Client(Some(last), 1, map[]) && |s4.owners| == 4 && s4.receipts == s2.receipts;
    var s5 := Exec(s4, steps[4]);
    assert s5.receipts == s2.receipts + [Receipt(session, frame.sequence, 3)];
    assert Run([]) == START;
    hide *;
    RunAppend([], steps[0]);
    assert [] + [steps[0]] == [steps[0]];
    RunAppend([steps[0]], steps[1]);
    assert [steps[0]] + [steps[1]] == [steps[0], steps[1]];
    RunAppend([steps[0], steps[1]], steps[2]);
    assert [steps[0], steps[1]] + [steps[2]] == [steps[0], steps[1], steps[2]];
    RunAppend([steps[0], steps[1], steps[2]], steps[3]);
    assert [steps[0], steps[1], steps[2]] + [steps[3]] == [steps[0], steps[1], steps[2], steps[3]];
    RunAppend([steps[0], steps[1], steps[2], steps[3]], steps[4]);
    assert [steps[0], steps[1], steps[2], steps[3]] + [steps[4]] == steps;
  }

  lemma RunAppend(steps: seq<Step>, step: Step)
    ensures Run(steps + [step]) == Exec(Run(steps), step)
  {
    assert (steps + [step])[..|steps|] == steps;
  }

  // ----- boots -----

  /** Publication k is the first, or of another boot than the one before. */
  predicate ChangesBoot(log: seq<Publication>, k: nat)
    requires k < |log|
  {
    k == 0 || log[k].next.bootEpoch != log[k - 1].next.bootEpoch
  }

  lemma BootChangesStep(log: seq<Publication>, n: nat)
    requires 0 < n <= |log|
    ensures BootChanges(log[..n]) == BootChanges(log[..n - 1]) + if ChangesBoot(log, n - 1) then 1 else 0
  {
    assert log[..n][..n - 1] == log[..n - 1];
  }

  /** The count of boot changes is monotone, and strictly so exactly across a change. */
  lemma {:induction false} BootChangesGrow(log: seq<Publication>, at: nat, end: nat)
    requires at <= end <= |log|
    ensures BootChanges(log[..at]) <= BootChanges(log[..end])
    ensures BootChanges(log[..at]) < BootChanges(log[..end]) <==> (exists k :: at <= k < end && ChangesBoot(log, k))
    decreases end
  {
    if at < end {
      BootChangesGrow(log, at, end - 1);
      BootChangesStep(log, end);
    }
  }

  /** `epochVersion` is the number of boot changes, the first included. */
  lemma EpochVersionCounts(steps: seq<Step>)
    ensures var s := Run(steps);
            s.client.epochVersion == |set k: nat | k < |s.log| && ChangesBoot(s.log, k)|
  {
    RunInvariant(steps);
    var log := Run(steps).log;
    CountChanges(log, |log|);
    assert log[..|log|] == log;
  }

  lemma {:induction false} CountChanges(log: seq<Publication>, n: nat)
    requires n <= |log|
    ensures BootChanges(log[..n]) == |set k: nat | k < n && ChangesBoot(log, k)|
    decreases n
  {
    var all := set k: nat | k < n && ChangesBoot(log, k);
    if n == 0 {
      assert all == {};
    } else {
      CountChanges(log, n - 1);
      var before := set k: nat | k < n - 1 && ChangesBoot(log, k);
      assert all == if ChangesBoot(log, n - 1) then before + {n - 1} else before;
      BootChangesStep(log, n);
    }
  }

  /** A response to a request issued before the latest change of boot cannot change the boot. */
  lemma StaleResponseKeepsBoot(steps: seq<Step>, id: nat, next: Projection, k: nat)
    requires id in Run(steps).pending
    requires Run(steps).pending[id].issuedAt <= k < |Run(steps).log| && ChangesBoot(Run(steps).log, k)
    ensures BootOf(Exec(Run(steps), Respond(id, next)).client.projection) == BootOf(Run(steps).client.projection)
  {
    RunInvariant(steps);
    var s := Run(steps);
    hide Run;
    assert s.pending[id].version < s.client.epochVersion by {
      hide Exec;
      BootChangesGrow(s.log, s.pending[id].issuedAt, |s.log|);
      assert s.log[..|s.log|] == s.log;
    }
    StaleStep(s, id, next);
  }

  lemma StaleStep(s: System, id: nat, next: Projection)
    requires id in s.pending && s.pending[id].version != s.client.epochVersion
    ensures BootOf(Exec(s, Respond(id, next)).client.projection) == BootOf(s.client.projection)
  {
  }

  /** Every change of boot after the first publication answers a registry request that was issued
      since the change before it. */
  lemma BootChangesByRegistry(steps: seq<Step>, i: nat)
    requires 0 < i < |Run(steps).log| && ChangesBoot(Run(steps).log, i)
    ensures var log := Run(steps).log;
            var cause := log[i].cause;
            && cause.Response? && cause.name == REGISTRY_COMMAND
            && 0 < cause.issuedAt <= i
            && forall k | cause.issuedAt <= k < i :: !ChangesBoot(log, k)
  {
    RunInvariant(steps);
    var log := Run(steps).log;
    hide Run;
    assert Justified(log, i);
    BootChangesGrow(log, log[i].cause.issuedAt, i);
    hide BootChanges;
    assert ChangesBoot(log, 0);
  }

  /** Between two changes of boot the published revisions strictly increase. */
  lemma {:induction false} RevisionsRise(steps: seq<Step>, i: nat, j: nat)
    requires i < j < |Run(steps).log|
    requires forall k | i < k <= j :: !ChangesBoot(Run(steps).log, k)
    ensures Run(steps).log[i].next.revision.Some? && Run(steps).log[j].next.revision.Some?
    ensures Run(steps).log[i].next.revision.value < Run(steps).log[j].next.revision.value
    decreases j
  {
    RunInvariant(steps);
    var log := Run(steps).log;
    hide Run;
    hide BootChanges;
    assert Justified(log, j) && Justified(log, i) && !ChangesBoot(log, j);
    if i < j - 1 {
      RevisionsRise(steps, i, j - 1);
    }
  }

  // ----- confluence -----

  datatype Answer = Answer(name: string, version: nat, next: Projection)

  /** The client after a list of answers has arrived. */
  function Absorb(c: Client, answers: seq<Answer>): Client {
    if answers == [] then c
    else
      var last := answers[|answers| - 1];
      Responded(Absorb(c, answers[..|answers| - 1]), last.name, last.version, last.next)
  }

  /** Answers of one boot, the client's own if it has a projection; a client without one answers
      for requests of its present version only, as in every run. */
  predicate OneBoot(c: Client, answers: seq<Answer>, boot: Option<string>) {
    && (c.projection.Some? ==> c.projection.value.bootEpoch == boot && AcceptableRevision(c.projection.value.revision))
    && forall a <- answers :: a.next.bootEpoch == boot && (c.projection.None? ==> a.version == c.epochVersion)
  }

  /** The snapshots that count: the client's own, and the delivered ones with a proper revision. */
  ghost predicate Candidate(c: Client, answers: seq<Answer>, p: Projection) {
    c.projection == Some(p) || (AcceptableRevision(p.revision) && exists a <- answers :: a.next == p)
  }

  /** The client's projection is a candidate of the largest revision, absent when there is none. */
  ghost predicate Newest(c: Client, answers: seq<Answer>, final: Option<Projection>) {
    match final
    case None => forall p :: !Candidate(c, answers, p)
    case Some(newest) =>
      && Candidate(c, answers, newest)
      && forall p :: Candidate(c, answers, p) ==>
           p.revision.Some? && newest.revision.Some? && p.revision.value <= newest.revision.value
  }

  /** What absorbing answers of one boot keeps besides. */
  predicate StillOneBoot(c: Client, now: Client, boot: Option<string>) {
    match now.projection
    case None => c.projection.None? && now.epochVersion == c.epochVersion
    case Some(p) => p.bootEpoch == boot && AcceptableRevision(p.revision)
  }

  lemma {:induction false} NewestWins(c: Client, answers: seq<Answer>, boot: Option<string>)
    requires OneBoot(c, answers, boot)
    ensures Newest(c, answers, Absorb(c, answers).projection)
    ensures StillOneBoot(c, Absorb(c, answers), boot)
    decreases |answers|
  {
    if answers != [] {
      var before, last := answers[..|answers| - 1], answers[|answers| - 1];
      assert answers == before + [last];
      NewestWins(c, before, boot);
      NewestStep(c, before, last, boot, Absorb(c, before));
    }
  }

  lemma NewestStep(c: Client, before: seq<Answer>, last: Answer, boot: Option<string>, now: Client)
    requires OneBoot(c, before + [last], boot)
    requires Newest(c, before, now.projection) && StillOneBoot(c, now, boot)
    ensures Newest(c, before + [last], Responded(now, last.name, last.version, last.next).projection)
    ensures StillOneBoot(c, Responded(now, last.name, last.version, last.next), boot)
  {
    assert last in before + [last];
    CandidatesGrow(c, before, last);
    hide Candidate;
    assert last.next.bootEpoch == boot && (now.projection.None? ==> last.version == now.epochVersion);
    hide OneBoot;
    var after := Responded(now, last.name, last.version, last.next);
    var taken := AcceptableRevision(last.next.revision) &&
                 (now.projection.Some? ==> last.next.revision.value > now.projection.value.revision.value);
    assert after.projection == if taken then Some(last.next) else now.projection;
  }

  lemma CandidatesGrow(c: Client, before: seq<Answer>, last: Answer)
    ensures forall p :: Candidate(c, before + [last], p) <==>
              Candidate(c, before, p) || (AcceptableRevision(p.revision) && p == last.next)
  {
    forall p: Projection
      ensures Candidate(c, before + [last], p) <==>
                Candidate(c, before, p) || (AcceptableRevision(p.revision) && p == last.next)
    {
      assert last in before + [last];
      assert forall a <- before :: a in before + [last];
    }
  }

  /** Within one boot, order, repetition and delay of the answers do not matter, given that the
      host issues one snapshot per revision. */
  lemma Confluence(c: Client, one: seq<Answer>, other: seq<Answer>, boot: Option<string>)
    requires OneBoot(c, one, boot) && OneBoot(c, other, boot)
    requires forall p :: Candidate(c, one, p) <==> Candidate(c, other, p)
    requires forall p, q :: Candidate(c, one, p) && Candidate(c, one, q) && p.revision == q.revision ==> p == q
    ensures Absorb(c, one).projection == Absorb(c, other).projection
  {
    hide *;
    NewestWins(c, one, boot);
    NewestWins(c, other, boot);
  }
}
