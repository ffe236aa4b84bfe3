/** Starting the shell: the saved state is normalised onto the shipped one, and then everything the
    host governs - installations, slot owners, add-on channel flags - is imposed from its projection. */
module HostRebase {
  import opened Options
  import opened StateMigration

  datatype Grant = Grant(capability: string, granted: bool, scope: string)

  datatype Provenance = Provenance(tier: Option<string>, verification: Option<string>)

  datatype Manifest = Manifest(
    id: string, requested: seq<Grant>, presetIds: seq<string>, provenance: Option<Provenance>)

  datatype Source = Bundled | Sideload

  datatype Status = Available | Disabled | Running

  datatype Installation = Installation(
    addonId: string, source: Source, provenanceTier: string, verificationState: string,
    installed: bool, enabled: bool, status: Status, grants: seq<Grant>, presetIds: seq<string>)

  datatype Acknowledgement = Acknowledgement(installed: bool, enabled: bool, grants: seq<Grant>)

  /** The host's registry. Both lists hold the entries of a record: no key occurs twice. */
  datatype Projection = Projection(
    candidates: seq<Manifest>, installations: seq<(string, Acknowledgement)>, slots: seq<(string, Option<string>)>)

  /** What one start is given besides the saved state; `None` is an offline or denied host. */
  datatype Host = Host(manifests: seq<Manifest>, sideloaded: set<string>, projection: Option<Projection>)

  const UNVERIFIED_TIER := "sideloaded-unverified"
  const UNVERIFIED := "unverified"

  function Candidates(host: Host): seq<Manifest> {
    if host.projection.Some? then host.projection.value.candidates else []
  }

  function Acknowledgements(host: Host): seq<(string, Acknowledgement)> {
    if host.projection.Some? then host.projection.value.installations else []
  }

  function SlotEntries(host: Host): seq<(string, Option<string>)> {
    if host.projection.Some? then host.projection.value.slots else []
  }

  // ----- what a start must produce -----

  /** The manifest of an id in the list; the last one when `last` is set, and otherwise the first. */
  function ManifestOf(list: seq<Manifest>, id: string, last: bool): Option<Manifest> {
    if list == [] then None
    else
      var n := |list| - 1;
      var before := ManifestOf(list[..n], id, last);
      if list[n].id == id && (last || before.None?) then Some(list[n]) else before
  }

  /** The catalog: a local manifest, or else what the host describes under that id. */
  function Described(manifests: seq<Manifest>, candidates: seq<Manifest>, id: string): Option<Manifest> {
    Coalesce(ManifestOf(manifests, id, true), ManifestOf(candidates, id, false))
  }

  function AcknowledgedIn(entries: seq<(string, Acknowledgement)>, id: string): Option<Acknowledgement> {
    if entries == [] then None
    else
      var n := |entries| - 1;
      if entries[n].0 == id then Some(entries[n].1) else AcknowledgedIn(entries[..n], id)
  }

  function OwnerIn(entries: seq<(string, Option<string>)>, slot: string): Option<string> {
    if entries == [] then None
    else
      var n := |entries| - 1;
      if entries[n].0 == slot && entries[n].1.Some? && entries[n].1.value != "" then entries[n].1
      else OwnerIn(entries[..n], slot)
  }

  /** Bundled means: a local manifest that the operator did not sideload. */
  function SourceOf(host: Host, id: string): Source {
    if ManifestOf(host.manifests, id, true).Some? && id !in host.sideloaded then Bundled else Sideload
  }

  /** `createDefaultInstallation`: nothing is installed, enabled or granted. */
  function DefaultInstallation(m: Manifest, source: Source): Installation {
    var trusted := source.Bundled? && m.provenance.Some?;
    Installation(
      m.id, source,
      if trusted && m.provenance.value.tier.Some? then m.provenance.value.tier.value else UNVERIFIED_TIER,
      if trusted && m.provenance.value.verification.Some? then m.provenance.value.verification.value else UNVERIFIED,
      false, false, Available,
      seq(|m.requested|, i requires 0 <= i < |m.requested| => m.requested[i].(granted := false)),
      m.presetIds)
  }

  /** An add-on that only the host knows. */
  function HostOnlyInstallation(id: string): Installation {
    Installation(id, Sideload, UNVERIFIED_TIER, UNVERIFIED, false, false, Available, [], [])
  }

  function WithAcknowledgement(i: Installation, a: Acknowledgement): Installation {
    i.(installed := a.installed, enabled := a.enabled,
       status := if a.enabled then Running else if a.installed then Disabled else Available,
       grants := a.grants)
  }

  /** The installation of an id after the given acknowledgements. */
  function InstallationAfter(host: Host, entries: seq<(string, Acknowledgement)>, id: string): Option<Installation> {
    var described := match Described(host.manifests, Candidates(host), id)
      case None => None
      case Some(m) => Some(DefaultInstallation(m, SourceOf(host, id)));
    match AcknowledgedIn(entries, id)
    case None => described
    case Some(a) => Some(WithAcknowledgement(if described.Some? then described.value else HostOnlyInstallation(id), a))
  }

  ghost predicate IsCatalog(catalog: map<string, Manifest>, manifests: seq<Manifest>, candidates: seq<Manifest>) {
    forall id :: var m := Described(manifests, candidates, id);
      (id in catalog <==> m.Some?) && (id in catalog ==> catalog[id] == m.value)
  }

  ghost predicate AreInstallations(installations: map<string, Installation>, host: Host,
                                   entries: seq<(string, Acknowledgement)>) {
    forall id :: var i := InstallationAfter(host, entries, id);
      (id in installations <==> i.Some?) && (id in installations ==> installations[id] == i.value)
  }

  ghost predicate AreOwners(slots: map<string, string>, entries: seq<(string, Option<string>)>) {
    forall slot :: var owner := OwnerIn(entries, slot);
      (slot in slots <==> owner.Some?) && (slot in slots ==> slots[slot] == owner.value)
  }

  lemma {:induction false} ManifestOfId(list: seq<Manifest>, id: string, last: bool)
    ensures var m := ManifestOf(list, id, last); m.Some? ==> m.value in list && m.value.id == id
    ensures ManifestOf(list, id, last).None? ==> forall m <- list :: m.id != id
    decreases |list|
  {
    if list != [] {
      var n := |list| - 1;
      ManifestOfId(list[..n], id, last);
      assert list == list[..n] + [list[n]];
    }
  }

  /** The first half of `rebaseStateOnManifests`: the catalog of what can be installed. */
  method BuildCatalog(manifests: seq<Manifest>, candidates: seq<Manifest>) returns (catalog: map<string, Manifest>)
    ensures IsCatalog(catalog, manifests, candidates)
  {
    catalog := map[];
    for i := 0 to |manifests|
      invariant IsCatalog(catalog, manifests[..i], [])
    {
      assert manifests[..i + 1][..i] == manifests[..i];
      catalog := catalog[manifests[i].id := manifests[i]];
    }
    assert manifests[..|manifests|] == manifests;
    for i := 0 to |candidates|
      invariant IsCatalog(catalog, manifests, candidates[..i])
    {
      assert candidates[..i + 1][..i] == candidates[..i];
      if candidates[i].id !in catalog {
        catalog := catalog[candidates[i].id := candidates[i]];
      }
    }
    assert candidates[..|candidates|] == candidates;
  }

  /** Every catalogued add-on starts out available and unauthorized. */
  method UnauthorizedInstallations(host: Host) returns (installations: map<string, Installation>)
    ensures AreInstallations(installations, host, [])
  {
    var catalog := BuildCatalog(host.manifests, Candidates(host));
    var bundled := set m <- host.manifests | m.id !in host.sideloaded :: m.id;
    installations := map id <- catalog :: DefaultInstallation(catalog[id], if id in bundled then Bundled else Sideload);
    forall id ensures id in bundled <==> SourceOf(host, id) == Bundled {
      ManifestOfId(host.manifests, id, true);
    }
    hide Described, SourceOf, DefaultInstallation, ManifestOf;
  }

  lemma AcknowledgementStep(host: Host, entries: seq<(string, Acknowledgement)>,
                            installations: map<string, Installation>,
                            id: string, a: Acknowledgement)
    requires AreInstallations(installations, host, entries)
    ensures var metadata := if id in installations then installations[id] else HostOnlyInstallation(id);
            AreInstallations(installations[id := WithAcknowledgement(metadata, a)], host, entries + [(id, a)])
  {
    AcknowledgedAgain(host, entries, id, a);
    hide InstallationAfter, WithAcknowledgement, HostOnlyInstallation;
  }

  /** `rebaseStateOnManifests`: installations and slot owners follow from the manifests and the host's
      projection alone. */
  method RebaseOnManifests(host: Host) returns (installations: map<string, Installation>, slots: map<string, string>)
    ensures AreInstallations(installations, host, Acknowledgements(host))
    ensures AreOwners(slots, SlotEntries(host))
  {
    installations := UnauthorizedInstallations(host);
    var entries := Acknowledgements(host);
    for i := 0 to |entries|
      invariant AreInstallations(installations, host, entries[..i])
    {
      assert entries[..i + 1] == entries[..i] + [entries[i]];
      var (id, acknowledged) := entries[i];
      var metadata := if id in installations then installations[id] else HostOnlyInstallation(id);
      AcknowledgementStep(host, entries[..i], installations, id, acknowledged);
      installations := installations[id := WithAcknowledgement(metadata, acknowledged)];
      hide *;
    }
    assert entries[..|entries|] == entries;
    slots := RebaseSlots(SlotEntries(host));
  }

  method RebaseSlots(entries: seq<(string, Option<string>)>) returns (slots: map<string, string>)
    ensures AreOwners(slots, entries)
  {
    slots := map[];
    for i := 0 to |entries|
      invariant AreOwners(slots, entries[..i])
    {
      assert entries[..i + 1][..i] == entries[..i];
      var (slot, owner) := entries[i];
      if owner.Some? && owner.value != "" {
        slots := slots[slot := owner.value];
      }
    }
    assert entries[..|entries|] == entries;
  }

  /** One more acknowledgement sets exactly the governed fields of its own add-on. */
  lemma AcknowledgedAgain(host: Host, entries: seq<(string, Acknowledgement)>, id: string, a: Acknowledgement)
    ensures var before := InstallationAfter(host, entries, id);
            var metadata := if before.Some? then before.value else HostOnlyInstallation(id);
            InstallationAfter(host, entries + [(id, a)], id) == Some(WithAcknowledgement(metadata, a))
    ensures forall other | other != id ::
              InstallationAfter(host, entries + [(id, a)], other) == InstallationAfter(host, entries, other)
  {
    assert (entries + [(id, a)])[..|entries|] == entries;
    hide Described, DefaultInstallation, SourceOf;
  }

  // ----- the tables as functions of the host -----

  lemma {:induction false} AcknowledgedListed(entries: seq<(string, Acknowledgement)>, id: string)
    ensures AcknowledgedIn(entries, id).Some? ==> (id, AcknowledgedIn(entries, id).value) in entries
    decreases |entries|
  {
    if entries != [] {
      var n := |entries| - 1;
      AcknowledgedListed(entries[..n], id);
      assert entries[n] in entries;
    }
  }

  lemma {:induction false} OwnerListed(entries: seq<(string, Option<string>)>, slot: string)
    ensures var owner := OwnerIn(entries, slot);
            owner.Some? ==> (slot, owner) in entries && owner != Some("")
    decreases |entries|
  {
    if entries != [] {
      var n := |entries| - 1;
      OwnerListed(entries[..n], slot);
      assert entries[n] in entries;
    }
  }

  function Installations(host: Host): map<string, Installation> {
    var described := (set m <- host.manifests :: m.id) + (set m <- Candidates(host) :: m.id);
    var ids := described + (set e <- Acknowledgements(host) :: e.0);
    map id | id in ids && InstallationAfter(host, Acknowledgements(host), id).Some?
      :: InstallationAfter(host, Acknowledgements(host), id).value
  }

  function SlotOwners(host: Host): map<string, string> {
    var entries := SlotEntries(host);
    map slot | slot in (set e <- entries :: e.0) && OwnerIn(entries, slot).Some? :: OwnerIn(entries, slot).value
  }

  /** What the start produces is determined: any table with the required look-ups is this one. */
  lemma TablesDetermined(host: Host, installations: map<string, Installation>, slots: map<string, string>)
    requires AreInstallations(installations, host, Acknowledgements(host)) && AreOwners(slots, SlotEntries(host))
    ensures installations == Installations(host) && slots == SlotOwners(host)
  {
    var entries := Acknowledgements(host);
    forall id
      ensures InstallationAfter(host, entries, id).Some? <==> id in Installations(host)
    {
      ManifestOfId(host.manifests, id, true);
      ManifestOfId(Candidates(host), id, false);
      AcknowledgedListed(entries, id);
      hide ManifestOf, AcknowledgedIn, DefaultInstallation, SourceOf, WithAcknowledgement;
    }
    forall slot
      ensures OwnerIn(SlotEntries(host), slot).Some? <==> slot in SlotOwners(host)
    {
      OwnerListed(SlotEntries(host), slot);
      hide OwnerIn;
    }
    hide InstallationAfter, OwnerIn;
    assert installations.Keys == Installations(host).Keys;
    assert slots.Keys == SlotOwners(host).Keys;
  }

  // ----- the host decides -----

  /** The host's last word on the add-on. */
  ghost predicate Acknowledges(host: Host, id: string, a: Acknowledgement) {
    var entries := Acknowledgements(host);
    exists e: nat :: e < |entries| && entries[e] == (id, a) && forall f: nat | e < f < |entries| :: entries[f].0 != id
  }

  /** The manifest the add-on is known by: the last local one of its id. */
  ghost predicate Local(host: Host, id: string, m: Manifest) {
    exists k: nat :: k < |host.manifests| && host.manifests[k] == m && m.id == id &&
                     forall j: nat | k < j < |host.manifests| :: host.manifests[j].id != id
  }

  /** Without a local manifest, the first one the host describes. */
  ghost predicate HostDescribes(host: Host, id: string, m: Manifest) {
    var candidates := Candidates(host);
    && (forall k: nat | k < |host.manifests| :: host.manifests[k].id != id)
    && exists k: nat :: k < |candidates| && candidates[k] == m && m.id == id &&
                        forall j: nat | j < k :: candidates[j].id != id
  }

  lemma {:induction false} LastManifest(list: seq<Manifest>, id: string) returns (k: nat)
    ensures k <= |list|
    ensures if k == |list| then ManifestOf(list, id, true).None? && forall j: nat | j < |list| :: list[j].id != id
            else ManifestOf(list, id, true) == Some(list[k]) && list[k].id == id &&
                 forall j: nat | k < j < |list| :: list[j].id != id
    decreases |list|
  {
    k := 0;
    if list != [] {
      var n: nat := |list| - 1;
      k := LastManifest(list[..n], id);
      assert forall j: nat | j < n :: list[..n][j] == list[j];
      if list[n].id == id { k := n; } else if k == n { k := |list|; }
    }
  }

  lemma {:induction false} FirstManifest(list: seq<Manifest>, id: string) returns (k: nat)
    ensures k <= |list| && forall j: nat | j < k :: list[j].id != id
    ensures if k == |list| then ManifestOf(list, id, false).None?
            else ManifestOf(list, id, false) == Some(list[k]) && list[k].id == id
    decreases |list|
  {
    k := 0;
    if list != [] {
      var n: nat := |list| - 1;
      k := FirstManifest(list[..n], id);
      assert forall j: nat | j < n :: list[..n][j] == list[j];
      if k == n && list[n].id != id { k := |list|; }
    }
  }

  lemma {:induction false} LastAcknowledgement(entries: seq<(string, Acknowledgement)>, id: string) returns (k: nat)
    ensures k <= |entries|
    ensures if k == |entries| then
              AcknowledgedIn(entries, id).None? && forall j: nat | j < |entries| :: entries[j].0 != id
            else AcknowledgedIn(entries, id) == Some(entries[k].1) && entries[k].0 == id &&
                 forall j: nat | k < j < |entries| :: entries[j].0 != id
    decreases |entries|
  {
    k := 0;
    if entries != [] {
      var n: nat := |entries| - 1;
      k := LastAcknowledgement(entries[..n], id);
      assert forall j: nat | j < n :: entries[..n][j] == entries[j];
      if entries[n].0 == id { k := n; } else if k == n { k := |entries|; }
    }
  }

  lemma AcknowledgedIs(host: Host, id: string, a: Acknowledgement)
    ensures AcknowledgedIn(Acknowledgements(host), id) == Some(a) <==> Acknowledges(host, id, a)
  {
    var entries := Acknowledgements(host);
    var k := LastAcknowledgement(entries, id);
    hide AcknowledgedIn;
    assert k < |entries| ==> entries[k] == (id, entries[k].1);
    if Acknowledges(host, id, a) {
      var e: nat :| e < |entries| && entries[e] == (id, a) && forall f: nat | e < f < |entries| :: entries[f].0 != id;
      assert e == k;
    }
  }

  lemma DescribedIs(host: Host, id: string, m: Manifest)
    ensures Described(host.manifests, Candidates(host), id) == Some(m) <==>
            Local(host, id, m) || HostDescribes(host, id, m)
    ensures Local(host, id, m) ==> ManifestOf(host.manifests, id, true) == Some(m)
    ensures HostDescribes(host, id, m) ==> ManifestOf(host.manifests, id, true).None?
  {
    var candidates := Candidates(host);
    var k := LastManifest(host.manifests, id);
    var c := FirstManifest(candidates, id);
    hide ManifestOf;
    if Local(host, id, m) {
      var j: nat :| j < |host.manifests| && host.manifests[j] == m && m.id == id &&
                    forall l: nat | j < l < |host.manifests| :: host.manifests[l].id != id;
      assert j == k;
    }
    if HostDescribes(host, id, m) {
      var j: nat :| j < |candidates| && candidates[j] == m && m.id == id &&
                    forall l: nat | l < j :: candidates[l].id != id;
      assert j == c;
    }
  }

  /** The host decides what is installed, enabled and granted: what it acknowledged, word for word, and nothing
      otherwise. An add-on it did not acknowledge asks for what its manifest requests, with nothing granted. */
  lemma HostDecides(host: Host, id: string)
    requires id in Installations(host)
    ensures var i := Installations(host)[id];
            && (forall a | Acknowledges(host, id, a) ::
                  i.installed == a.installed && i.enabled == a.enabled && i.grants == a.grants)
            && ((forall a :: !Acknowledges(host, id, a)) ==>
                  && !i.installed && !i.enabled
                  && forall m | Local(host, id, m) || HostDescribes(host, id, m) ::
                       |i.grants| == |m.requested| &&
                       forall j: nat | j < |i.grants| ::
                         !i.grants[j].granted && i.grants[j].capability == m.requested[j].capability
                         && i.grants[j].scope == m.requested[j].scope)
            && (i.status.Running? <==> i.enabled) && (i.status.Disabled? <==> i.installed && !i.enabled)
            && (i.status.Available? <==> !i.installed && !i.enabled)
  {
    var i := Installations(host)[id];
    assert InstallationAfter(host, Acknowledgements(host), id) == Some(i);
    hide Installations;
    forall a ensures AcknowledgedIn(Acknowledgements(host), id) == Some(a) <==> Acknowledges(host, id, a) {
      AcknowledgedIs(host, id, a);
    }
    forall m
      ensures Described(host.manifests, Candidates(host), id) == Some(m) <==>
              Local(host, id, m) || HostDescribes(host, id, m)
    {
      DescribedIs(host, id, m);
    }
    hide Acknowledges, Local, HostDescribes, Described, AcknowledgedIn, SourceOf;
  }

  /** Who and what an add-on is comes from its manifest; trust only from a local one the operator did not sideload. */
  lemma ManifestDecides(host: Host, id: string)
    requires id in Installations(host)
    ensures var i := Installations(host)[id];
            && i.addonId == id
            && (i.source.Bundled? <==> id !in host.sideloaded && exists m :: Local(host, id, m))
            && (forall m | Local(host, id, m) || HostDescribes(host, id, m) :: i.presetIds == m.presetIds)
            && (forall m | Local(host, id, m) && i.source.Bundled? ::
                  && i.provenanceTier == (if m.provenance.Some? && m.provenance.value.tier.Some?
                                          then m.provenance.value.tier.value else UNVERIFIED_TIER)
                  && i.verificationState == (if m.provenance.Some? && m.provenance.value.verification.Some?
                                             then m.provenance.value.verification.value else UNVERIFIED))
            && (i.source.Sideload? ==> i.provenanceTier == UNVERIFIED_TIER && i.verificationState == UNVERIFIED)
            && ((forall m :: !Local(host, id, m) && !HostDescribes(host, id, m)) ==>
                  i.source.Sideload? && i.presetIds == [] && exists a :: Acknowledges(host, id, a))
  {
    var i := Installations(host)[id];
    assert InstallationAfter(host, Acknowledgements(host), id) == Some(i);
    hide Installations;
    forall a ensures AcknowledgedIn(Acknowledgements(host), id) == Some(a) <==> Acknowledges(host, id, a) {
      AcknowledgedIs(host, id, a);
    }
    var local := ManifestOf(host.manifests, id, true);
    LocalIs(host, id);
    forall m
      ensures Described(host.manifests, Candidates(host), id) == Some(m) <==>
              Local(host, id, m) || HostDescribes(host, id, m)
      ensures Local(host, id, m) ==> local == Some(m)
    {
      DescribedIs(host, id, m);
    }
    ManifestOfId(host.manifests, id, true);
    ManifestOfId(Candidates(host), id, false);
    hide Acknowledges, Local, HostDescribes, AcknowledgedIn, ManifestOf;
  }

  lemma LocalIs(host: Host, id: string)
    ensures ManifestOf(host.manifests, id, true).Some? <==> exists m :: Local(host, id, m)
  {
    var k := LastManifest(host.manifests, id);
    hide ManifestOf;
    if k < |host.manifests| {
      assert Local(host, id, host.manifests[k]);
    }
  }

  /** Every add-on with a local manifest, a candidate of the host's or an acknowledgement is listed, and no other. */
  lemma InstallationsAre(host: Host, id: string)
    ensures id in Installations(host) <==>
            || (exists m :: (m in host.manifests || m in Candidates(host)) && m.id == id)
            || exists e <- Acknowledgements(host) :: e.0 == id
  {
    var k := LastAcknowledgement(Acknowledgements(host), id);
    ManifestOfId(host.manifests, id, true);
    ManifestOfId(Candidates(host), id, false);
    hide ManifestOf, AcknowledgedIn, DefaultInstallation, SourceOf, WithAcknowledgement, HostOnlyInstallation;
  }

  /** Trust is never assumed: a verified tier or state is the declared provenance of a bundled manifest. */
  lemma TrustIsDeclared(host: Host, id: string)
    requires id in Installations(host)
    ensures var i := Installations(host)[id]; var m := ManifestOf(host.manifests, id, true);
            i.provenanceTier != UNVERIFIED_TIER || i.verificationState != UNVERIFIED
            ==> m.Some? && m.value.provenance.Some? && id !in host.sideloaded && i.source.Bundled?
  {
    hide AcknowledgedIn, ManifestOf;
  }

  /** The entry gives the slot an owner of a name. */
  ghost predicate Assigns(entry: (string, Option<string>), slot: string) {
    entry.0 == slot && entry.1 != None && entry.1 != Some("")
  }

  lemma {:induction false} LastOwner(entries: seq<(string, Option<string>)>, slot: string) returns (k: nat)
    ensures k <= |entries|
    ensures if k == |entries| then
              OwnerIn(entries, slot) == None && forall j: nat | j < |entries| :: !Assigns(entries[j], slot)
            else OwnerIn(entries, slot) == entries[k].1 && Assigns(entries[k], slot) &&
                 forall j: nat | k < j < |entries| :: !Assigns(entries[j], slot)
    decreases |entries|
  {
    k := 0;
    if entries != [] {
      var n: nat := |entries| - 1;
      k := LastOwner(entries[..n], slot);
      assert forall j: nat | j < n :: entries[..n][j] == entries[j];
      assert entries[n].1.Some? ==> entries[n].1 == Some(entries[n].1.value);
      if Assigns(entries[n], slot) { k := n; } else if k == n { k := |entries|; }
    }
  }

  /** A slot is owned by the last owner of a name that the host reports for it. */
  lemma OwnerIs(host: Host, slot: string, owner: string)
    ensures slot in SlotOwners(host) && SlotOwners(host)[slot] == owner <==>
            var entries := SlotEntries(host);
            exists e: nat :: e < |entries| && entries[e] == (slot, Some(owner)) && owner != "" &&
                             forall f: nat | e < f < |entries| :: !Assigns(entries[f], slot)
  {
    var entries := SlotEntries(host);
    var k := LastOwner(entries, slot);
    OwnerListed(entries, slot);
    hide OwnerIn;
    if e: nat :| e < |entries| && entries[e] == (slot, Some(owner)) && owner != "" &&
                 forall f: nat | e < f < |entries| :: !Assigns(entries[f], slot)
    {
      assert Assigns(entries[e], slot);
      assert e == k;
    }
    if k < |entries| {
      assert entries[k] == (slot, entries[k].1);
    }
  }

  /** Offline, nothing is enabled, installed or granted, and no slot is owned. */
  lemma OfflineGrantsNothing(host: Host)
    requires host.projection.None?
    ensures forall id <- Installations(host) :: var i := Installations(host)[id];
              !i.installed && !i.enabled && forall g <- i.grants :: !g.granted
    ensures SlotOwners(host) == map[]
  {
    forall id <- Installations(host)
      ensures var i := Installations(host)[id]; !i.installed && !i.enabled && forall g <- i.grants :: !g.granted
    {
      HostDecides(host, id);
      hide Installations;
    }
  }

  // ----- a whole start -----

  /** The part of the shell's state that is modelled. */
  datatype Shell = Shell(
    providers: seq<Record>, runtimeNodes: seq<Record>, agents: seq<Record>, threads: seq<Record>,
    strategies: seq<Record>, channels: seq<Record>,
    installations: map<string, Installation>, slots: map<string, string>)

  function Live(installations: map<string, Installation>): set<string> {
    set id <- installations | installations[id].enabled
  }

  /** `normalizeState`: the saved installations and slot owners are not looked at. */
  function NormalizeState(saved: Shell, base: Shell): Shell {
    Shell(
      Normalized(Providers, saved.providers, base.providers),
      Normalized(RuntimeNodes, saved.runtimeNodes, base.runtimeNodes),
      NormalizeAgents(saved.agents, base.agents),
      Normalized(Threads, saved.threads, base.threads),
      NormalizeStrategies(saved.strategies, base.strategies),
      NormalizeChannels(Live(base.installations), saved.channels, base.channels),
      base.installations, map[])
  }

  /** `hydrateState` on what was read back, if anything was saved. */
  function Start(saved: Option<Shell>, base: Shell, host: Host): Shell {
    var state := if saved.Some? then NormalizeState(saved.value, base) else base;
    var installations := Installations(host);
    state.(
      channels := NormalizeChannels(Live(installations), state.channels, base.channels),
      installations := installations,
      slots := SlotOwners(host))
  }

  /** The same computed as the source does, with the tables built up in place. */
  method HydrateState(saved: Option<Shell>, base: Shell, host: Host) returns (state: Shell)
    ensures state == Start(saved, base, host)
  {
    state := if saved.Some? then NormalizeState(saved.value, base) else base;
    var installations, slots := RebaseOnManifests(host);
    TablesDetermined(host, installations, slots);
    state := state.(
      channels := NormalizeChannels(Live(installations), state.channels, base.channels),
      installations := installations,
      slots := slots);
  }

  /** What `persistState` leaves to be read back: no governance, and no `undefined`. */
  function Persisted(s: Shell): Shell {
    Shell(
      RereadAll(s.providers, true), RereadAll(s.runtimeNodes, true), RereadAll(s.agents, true),
      RereadAll(s.threads, true), RereadAll(s.strategies, true), RereadAll(s.channels, true), map[], map[])
  }

  ghost predicate ShippedShell(base: Shell) {
    && DistinctIds(base.providers) && DistinctIds(base.runtimeNodes) && ShippedAgents(base.agents)
    && DistinctIds(base.threads) && DistinctIds(base.strategies) && DistinctIds(base.channels)
    && AllParsed(base.channels)
  }

  ghost predicate ReadBack(s: Shell) {
    && AllParsed(s.providers) && AllParsed(s.runtimeNodes) && AllParsed(s.agents)
    && AllParsed(s.threads) && AllParsed(s.strategies) && AllParsed(s.channels)
  }

  ghost predicate SameShell(a: Shell, b: Shell) {
    && AllAlike(a.providers, b.providers) && AllAlike(a.runtimeNodes, b.runtimeNodes) && AllAlike(a.agents, b.agents)
    && AllAlike(a.threads, b.threads) && AllAlike(a.strategies, b.strategies) && AllAlike(a.channels, b.channels)
    && a.installations == b.installations && a.slots == b.slots
  }

  /** Normalising an empty saved list gives the shipped one. */
  lemma NothingSaved(kind: Registry, defaults: seq<Record>)
    ensures Normalized(kind, [], defaults) == defaults
  {
    hide Entry;
    forall i: nat | i < |defaults|
      ensures Shipped(kind, [], defaults)[i] == defaults[i]
    {
      assert Find(kind, [], IdOf(defaults[i])) == None;
      assert Entry(kind, defaults[i], None) == defaults[i] by { EntryOfNothing(kind, defaults[i]); }
    }
    assert Shipped(kind, [], defaults) == defaults;
  }

  lemma EntryOfNothing(kind: Registry, d: Record)
    ensures Entry(kind, d, None) == d
  {
  }

  lemma AlikeListStored(a: seq<Record>, b: seq<Record>)
    requires AllAlike(a, b)
    ensures RereadAll(a, true) == RereadAll(b, true)
  {
    forall i: nat | i < |a|
      ensures Stored(a[i]) == Stored(b[i])
    {
      AlikeStored(a[i], b[i]);
    }
    hide Stored;
  }

  lemma AlikeChain(a: seq<Record>, b: seq<Record>, c: seq<Record>)
    requires AllAlike(a, b) && AllAlike(b, c)
    ensures AllAlike(a, c) && AllAlike(c, a)
  {
  }

  lemma ChannelsSettle(
    live: set<string>, was: set<string>, saved: seq<Record>, current: seq<Record>, defaults: seq<Record>)
    requires DistinctIds(defaults) && AllParsed(saved)
    requires AllAlike(current, NormalizeChannels(live, saved, defaults))
    ensures var again := NormalizeChannels(was, RereadAll(current, true), defaults);
            AllAlike(NormalizeChannels(live, again, defaults), current)
  {
    var once := NormalizeChannels(live, saved, defaults);
    var seen := RereadAll(current, true);
    AlikeListStored(current, once);
    var again := NormalizeChannels(was, seen, defaults);
    ChannelsForget(live, was, seen, defaults, false);
    assert RereadAll(again, false) == again;
    ChannelsForget(live, live, saved, defaults, true);
    hide NormalizeChannels, AllAlike, RereadAll;
    AlikeChain(NormalizeChannels(live, again, defaults), NormalizeChannels(live, seen, defaults), once);
    AlikeReversed(current, once);
    AlikeChain(NormalizeChannels(live, again, defaults), once, current);
  }

  lemma AlikeReversed(a: seq<Record>, b: seq<Record>)
    requires AllAlike(a, b)
    ensures AllAlike(b, a)
  {
  }

  lemma StartedChannels(saved: Option<Shell>, base: Shell, host: Host)
    requires ShippedShell(base)
    requires saved.Some? ==> ReadBack(saved.value)
    ensures var first := Start(saved, base, host);
            AllAlike(Start(Some(Persisted(first)), base, host).channels, first.channels)
  {
    var live, was := Live(Installations(host)), Live(base.installations);
    var first := Start(saved, base, host);
    hide Installations, Live, NormalizeChannels, Normalized, NormalizeAgents, NormalizeStrategies, SlotOwners;
    hide DistinctIds, AllParsed, AllAlike, RereadAll;
    var origin := if saved.Some? then saved.value.channels else base.channels;
    if saved.Some? {
      ChannelsForget(live, was, origin, base.channels, false);
      RereadNothing(NormalizeChannels(was, origin, base.channels));
    } else {
      AlikeSelf(first.channels);
    }
    ChannelsSettle(live, was, origin, first.channels, base.channels);
  }

  lemma RereadNothing(list: seq<Record>)
    ensures RereadAll(list, false) == list
  {
  }

  lemma AlikeSelf(list: seq<Record>)
    ensures AllAlike(list, list)
  {
  }

  lemma StartedRegistries(saved: Option<Shell>, base: Shell, host: Host)
    requires ShippedShell(base)
    requires saved.Some? ==> ReadBack(saved.value)
    ensures var first := Start(saved, base, host); var second := Start(Some(Persisted(first)), base, host);
            AllAlike(second.providers, first.providers) && AllAlike(second.runtimeNodes, first.runtimeNodes)
            && AllAlike(second.threads, first.threads)
  {
    hide Installations, Live, NormalizeChannels, Normalized, NormalizeAgents, NormalizeStrategies, SlotOwners;
    hide AllAlike, RereadAll, DistinctIds;
    NothingSaved(Providers, base.providers);
    NothingSaved(RuntimeNodes, base.runtimeNodes);
    NothingSaved(Threads, base.threads);
    NormalizedStable(Providers, if saved.Some? then saved.value.providers else [], base.providers, true);
    NormalizedStable(RuntimeNodes, if saved.Some? then saved.value.runtimeNodes else [], base.runtimeNodes, true);
    NormalizedStable(Threads, if saved.Some? then saved.value.threads else [], base.threads, true);
  }

  lemma StartedPolicies(saved: Option<Shell>, base: Shell, host: Host)
    requires ShippedShell(base)
    requires saved.Some? ==> ReadBack(saved.value)
    ensures var first := Start(saved, base, host); var second := Start(Some(Persisted(first)), base, host);
            AllAlike(second.agents, first.agents) && AllAlike(second.strategies, first.strategies)
  {
    hide Installations, Live, NormalizeChannels, Normalized, NormalizeAgents, NormalizeStrategies, SlotOwners;
    hide AllAlike, RereadAll, DistinctIds;
    if saved.Some? {
      AgentsStable(saved.value.agents, base.agents, true);
      StrategiesStable(saved.value.strategies, base.strategies, true);
    } else {
      ShippedAgentsStable(base.agents, true);
      ShippedStrategiesStable(base.strategies, true);
    }
  }

  /** Saving the state of a start and starting again with the same host reproduces it: every registry reads
      the same, and installations, slot owners and channels are the same again. This holds for the very first
      start too, when nothing was saved. */
  lemma StartSettles(saved: Option<Shell>, base: Shell, host: Host)
    requires ShippedShell(base)
    requires saved.Some? ==> ReadBack(saved.value)
    ensures var first := Start(saved, base, host); SameShell(Start(Some(Persisted(first)), base, host), first)
  {
    StartedRegistries(saved, base, host);
    StartedPolicies(saved, base, host);
    StartedChannels(saved, base, host);
    hide Installations, Live, NormalizeState, NormalizeChannels, AllAlike, Persisted, SlotOwners;
  }

  /** Whatever was saved, the installations, the slot owners and the flag of every shipped add-on channel are
      the host's. */
  lemma SavedGovernanceIsIgnored(saved: Option<Shell>, base: Shell, host: Host, i: nat, addon: string)
    requires i < |base.channels| && addon != "" && AddonOf(Field(base.channels[i], Metadata)) == Some(addon)
    ensures var state := Start(saved, base, host);
            && state.installations == Installations(host)
            && state.slots == SlotOwners(host)
            && i < |state.channels|
            && Field(state.channels[i], Enabled)
               == Flag(var a := AcknowledgedIn(Acknowledgements(host), addon); a.Some? && a.value.enabled)
  {
    var merged := (if saved.Some? then NormalizeState(saved.value, base) else base).channels;
    AddonChannelFlag(Live(Installations(host)), merged, base.channels, i, addon);
    LiveAreAcknowledged(host, addon);
    hide Installations, Live, NormalizeChannel, Normalized, NormalizeAgents, NormalizeStrategies;
    hide SlotOwners, AcknowledgedIn;
  }

  lemma LiveAreAcknowledged(host: Host, id: string)
    ensures id in Live(Installations(host)) <==>
            AcknowledgedIn(Acknowledgements(host), id).Some? && AcknowledgedIn(Acknowledgements(host), id).value.enabled
  {
    AcknowledgedListed(Acknowledgements(host), id);
    hide AcknowledgedIn, Described, SourceOf;
  }
}
