/** Merging a saved registry onto the shipped defaults, record by record, with the migrations of
    entries that older releases wrote. What is proved is stability: once a registry has been
    normalised, normalising it again - directly, or after it was saved and read back - changes
    no property of any record. */
module StateMigration {
  import opened Options

  // ----- records -----

  /** The properties the code names; every other one is `Named`. */
  datatype Key =
    | Id | ApiBaseUrl | AllowedModels | ModelContext | ConsumerScopes | AuthMethod | AuthTier | ProviderType
    | PrimaryModel | FallbackModel
    | Kind | Locality | ProviderProfileId | SupportedModels | DeployableOnDemand | Notes | Endpoint | HealthState
    | DisplayName | FallbackProviderProfileId | ArchiveReadScopes | ArchiveIntakeWriteScopes | ChannelIds
    | PrimaryRoute
    | OwningAgentId | WorkspaceId | ChannelLabel | Enabled | Metadata
    | Named(name: string)

  /** A property's value. `Undefined` is a property that is present and holds `undefined`: it survives
      a spread but not `JSON.stringify`. `Structure` is any nested value the code only copies. */
  datatype Value =
    | Undefined | Null | Flag(on: bool) | Str(text: string) | Texts(texts: seq<string>)
    | Route(model: string, rest: nat)
    | ChannelMetadata(addonId: Option<string>, others: map<string, string>)
    | Structure(content: nat)

  type Record = map<Key, Value>

  function Field(r: Record, k: Key): Value {
    if k in r then r[k] else Undefined
  }

  function IdOf(r: Record): Value {
    Field(r, Id)
  }

  predicate Truthy(v: Value) {
    match v
    case Undefined => false
    case Null => false
    case Flag(on) => on
    case Str(text) => text != ""
    case _ => true
  }

  /** The `??` operator. */
  function Nullish(first: Value, second: Value): Value {
    if first.Undefined? || first.Null? then second else first
  }

  /** What `JSON.stringify` keeps of a record. */
  function Stored(r: Record): Record {
    map k | k in r && r[k] != Undefined :: r[k]
  }

  /** A record parsed from JSON has no `undefined` property. */
  ghost predicate Parsed(r: Record) {
    forall k <- r :: r[k] != Undefined
  }

  ghost predicate AllParsed(list: seq<Record>) {
    forall r <- list :: Parsed(r)
  }

  /** No reader of a property can tell the two records apart. */
  ghost predicate Alike(a: Record, b: Record) {
    forall k :: Field(a, k) == Field(b, k)
  }

  ghost predicate AllAlike(a: seq<Record>, b: seq<Record>) {
    |a| == |b| && forall i: nat :: i < |a| ==> Alike(a[i], b[i])
  }

  /** A record as the next normalisation sees it: the same value, or what was saved of it. */
  function Reread(r: Record, saved: bool): Record {
    if saved then Stored(r) else r
  }

  function RereadAll(list: seq<Record>, saved: bool): seq<Record> {
    seq(|list|, i requires 0 <= i < |list| => Reread(list[i], saved))
  }

  lemma RereadAlike(r: Record, saved: bool)
    ensures Alike(Reread(r, saved), r)
  {
  }

  /** Records that read alike are saved as the same record. */
  lemma AlikeStored(a: Record, b: Record)
    requires Alike(a, b)
    ensures Stored(a) == Stored(b)
  {
    forall k
      ensures k in Stored(a) <==> k in Stored(b)
      ensures k in Stored(a) && k in Stored(b) ==> Stored(a)[k] == Stored(b)[k]
    {
      assert Field(a, k) == Field(b, k);
    }
  }

  // ----- look-ups -----

  /** `list.find(item => item.id === id)`. */
  function FindFirst(list: seq<Record>, id: Value): Option<Record> {
    if list == [] then None
    else if IdOf(list[0]) == id then Some(list[0])
    else FindFirst(list[1..], id)
  }

  /** A look-up in `new Map(list.map(item => [item.id, item]))`: the last entry wins. */
  function FindLast(list: seq<Record>, id: Value): Option<Record> {
    if list == [] then None
    else if IdOf(list[|list| - 1]) == id then Some(list[|list| - 1])
    else FindLast(list[..|list| - 1], id)
  }

  lemma {:induction false} FoundFirst(list: seq<Record>, id: Value)
    ensures var found := FindFirst(list, id);
            found.Some? ==> found.value in list && IdOf(found.value) == id
  {
    if list != [] && IdOf(list[0]) != id {
      FoundFirst(list[1..], id);
    }
  }

  lemma {:induction false} FoundLast(list: seq<Record>, id: Value)
    ensures var found := FindLast(list, id);
            found.Some? ==> found.value in list && IdOf(found.value) == id
    decreases |list|
  {
    if list != [] && IdOf(list[|list| - 1]) != id {
      FoundLast(list[..|list| - 1], id);
    }
  }

  lemma {:induction false} FirstIs(list: seq<Record>, i: nat)
    requires i < |list|
    requires forall j: nat :: j < i ==> IdOf(list[j]) != IdOf(list[i])
    ensures FindFirst(list, IdOf(list[i])) == Some(list[i])
    decreases i
  {
    if i > 0 {
      assert IdOf(list[0]) != IdOf(list[i]);
      FirstIs(list[1..], i - 1);
    }
  }

  lemma {:induction false} LastIs(list: seq<Record>, i: nat)
    requires i < |list|
    requires forall j: nat :: i < j < |list| ==> IdOf(list[j]) != IdOf(list[i])
    ensures FindLast(list, IdOf(list[i])) == Some(list[i])
    decreases |list|
  {
    if i < |list| - 1 {
      assert IdOf(list[|list| - 1]) != IdOf(list[i]);
      LastIs(list[..|list| - 1], i);
    }
  }

  ghost predicate DistinctIds(list: seq<Record>) {
    forall i: nat, j: nat :: i < j < |list| ==> IdOf(list[i]) != IdOf(list[j])
  }

  function Ids(list: seq<Record>): set<Value> {
    set r <- list :: IdOf(r)
  }

  /** `list.filter(item => !ids.has(item.id))`. */
  function Others(list: seq<Record>, ids: set<Value>): seq<Record> {
    if list == [] then []
    else (if IdOf(list[0]) in ids then [] else [list[0]]) + Others(list[1..], ids)
  }

  lemma {:induction false} OthersAre(list: seq<Record>, ids: set<Value>)
    ensures forall r :: r in Others(list, ids) <==> r in list && IdOf(r) !in ids
  {
    if list != [] {
      OthersAre(list[1..], ids);
      assert list == [list[0]] + list[1..];
    }
  }

  lemma {:induction false} OthersSkip(list: seq<Record>, n: nat, ids: set<Value>)
    requires n <= |list|
    requires forall i: nat :: i < n ==> IdOf(list[i]) in ids
    requires forall i: nat :: n <= i < |list| ==> IdOf(list[i]) !in ids
    ensures Others(list, ids) == list[n..]
    decreases |list|
  {
    if list != [] {
      OthersSkip(list[1..], if n == 0 then 0 else n - 1, ids);
      if n == 0 {
        assert IdOf(list[0]) !in ids;
      } else {
        assert IdOf(list[0]) in ids;
      }
    }
  }

  // ----- the registries that keep what the user added -----

  datatype Registry = Providers | RuntimeNodes | Threads

  const SHARED_MINIMAX := Str("shared-minimax")
  const GX10_PROVIDER := Str("gx10-local-llama")
  const GX10_NODE := Str("node-gx10-qwen")
  const RETIRED_NODE := Str("node-gx10-gemma")
  const OPENAI_COMPATIBLE := Str("openai-compatible")
  const MINIMAX_M27 := "MiniMax-M2.7"
  const MINIMAX_M27_FAST := "MiniMax-M2.7-highspeed"
  const LEGACY_HOST := "192.168.1.77:30000"
  const LEGACY_MODEL := "gemma-4-26"
  const GX10_ENDPOINT := "http://192.168.1.77:30004/v1"
  const GX10_MODEL := "Qwen3.6-35B-A3B-Q4_K_M.gguf"
  const READY := Str("ready")

  /** The context limits and the note the two legacy migrations write. */
  const GX10_CONTEXT := Structure(0)
  const MIGRATION_NOTE := Structure(1)

  predicate LegacyMinimax(model: string) {
    model == MINIMAX_M27 || model == MINIMAX_M27_FAST
  }

  predicate OccursAt(text: string, part: string, i: nat) {
    i + |part| <= |text| && text[i..i + |part|] == part
  }

  /** `text.includes(part)`. */
  predicate Contains(text: string, part: string) {
    exists i: nat | i <= |text| :: OccursAt(text, part, i)
  }

  function LowerCase(text: string): string {
    seq(|text|, i requires 0 <= i < |text| =>
      if 'A' <= text[i] <= 'Z' then (text[i] as int + 32) as char else text[i])
  }

  function TextOf(v: Value): string {
    if v.Str? then v.text else ""
  }

  predicate NamesLegacyModel(models: Value) {
    models.Texts? && exists m <- models.texts :: Contains(LowerCase(m), LEGACY_MODEL)
  }

  predicate LegacyProvider(r: Record) {
    && Field(r, ProviderType) == OPENAI_COMPATIBLE
    && Contains(TextOf(Field(r, ApiBaseUrl)), LEGACY_HOST)
    && NamesLegacyModel(Field(r, AllowedModels))
  }

  predicate LegacyNode(r: Record) {
    Contains(TextOf(Field(r, Endpoint)), LEGACY_HOST) && NamesLegacyModel(Field(r, SupportedModels))
  }

  predicate Allows(profile: Record, model: Value) {
    model.Str? && Field(profile, AllowedModels).Texts? && model.text in Field(profile, AllowedModels).texts
  }

  function ChosenModel(profile: Record, current: Record): Value {
    var model := Field(current, PrimaryModel);
    if IdOf(profile) == SHARED_MINIMAX && model.Str? && LegacyMinimax(model.text) then Field(profile, PrimaryModel)
    else if Allows(profile, model) then model
    else Field(profile, PrimaryModel)
  }

  function ChosenFallback(profile: Record, current: Record): Value {
    var model := Field(current, FallbackModel);
    if Truthy(model) && Allows(profile, model) then model else Field(profile, FallbackModel)
  }

  /** The properties of a shipped provider that a saved one may not change ... */
  function ProviderContract(d: Record): Record {
    map[
      AllowedModels := Field(d, AllowedModels),
      ModelContext := Field(d, ModelContext),
      ConsumerScopes := Field(d, ConsumerScopes),
      AuthMethod := Field(d, AuthMethod),
      AuthTier := Field(d, AuthTier),
      ProviderType := Field(d, ProviderType)]
  }

  /** ... and those it may change only within limits. */
  function ProviderChoices(d: Record, current: Record): Record {
    map[
      ApiBaseUrl := if IdOf(d) == GX10_PROVIDER then Field(d, ApiBaseUrl) else Field(current, ApiBaseUrl),
      PrimaryModel := ChosenModel(d, current),
      FallbackModel := ChosenFallback(d, current)]
  }

  function ImposedOnProvider(d: Record, current: Record): Record {
    ProviderContract(d) + ProviderChoices(d, current)
  }

  function NodeContract(d: Record): Record {
    map[
      Kind := Field(d, Kind),
      Locality := Field(d, Locality),
      ProviderProfileId := Field(d, ProviderProfileId),
      SupportedModels := Field(d, SupportedModels),
      AuthTier := Field(d, AuthTier),
      DeployableOnDemand := Field(d, DeployableOnDemand),
      Notes := Field(d, Notes)]
  }

  /** The contract of a shipped node; the GX10 node is also moved back to its shipped address. */
  function ImposedOnNode(d: Record, current: Record): Record {
    if IdOf(d) == GX10_NODE && Field(d + current, Endpoint) != Field(d, Endpoint)
    then NodeContract(d) + map[Endpoint := Field(d, Endpoint), HealthState := Field(d, HealthState)]
    else NodeContract(d)
  }

  function Imposed(kind: Registry, d: Record, current: Record): Record {
    match kind
    case Providers => ImposedOnProvider(d, current)
    case RuntimeNodes => ImposedOnNode(d, current)
    case Threads => map[]
  }

  /** `{ ...shipped, ...current, <imposed> }`, or the shipped record when nothing was saved under its id. */
  function Entry(kind: Registry, d: Record, current: Option<Record>): Record {
    if current.None? then d else d + current.value + Imposed(kind, d, current.value)
  }

  /** What happens to a saved record that is not among the shipped ones. */
  function Migrate(kind: Registry, r: Record): Record {
    match kind
    case Providers =>
      if !LegacyProvider(r) then r
      else r + map[
        ApiBaseUrl := Str(GX10_ENDPOINT),
        AllowedModels := Texts([GX10_MODEL]),
        PrimaryModel := Str(GX10_MODEL),
        FallbackModel := Undefined,
        ModelContext := GX10_CONTEXT]
    case RuntimeNodes =>
      if !LegacyNode(r) then r
      else r + map[
        Endpoint := Str(GX10_ENDPOINT),
        SupportedModels := Texts([GX10_MODEL]),
        HealthState := READY,
        Notes := MIGRATION_NOTE]
    case Threads => r
  }

  // ----- what the migrations recognise, and what they write -----

  ghost predicate AtOldAddress(v: Value) {
    v.Str? && exists before: string, after: string :: v.text == before + "192.168.1.77:30000" + after
  }

  /** One of the models has the retired name somewhere in its own, whatever the case of its letters. */
  ghost predicate RunsRetired(models: Value) {
    models.Texts? && exists m <- models.texts :: exists i: nat :: NamedAt(m, i)
  }

  ghost predicate NamedAt(m: string, i: nat) {
    i + 10 <= |m| && forall j: nat | j < 10 :: m[i + j] == "gemma-4-26"[j] || m[i + j] == "GEMMA-4-26"[j]
  }

  lemma ContainsIs(text: string, part: string)
    ensures Contains(text, part) <==> exists before: string, after: string :: text == before + part + after
  {
    if i: nat :| i <= |text| && OccursAt(text, part, i) {
      assert text == text[..i] + part + text[i + |part|..];
    }
    if before: string, after: string :| text == before + part + after {
      assert OccursAt(text, part, |before|);
    }
  }

  lemma OccursInLowerCase(m: string, i: nat)
    ensures OccursAt(LowerCase(m), LEGACY_MODEL, i) <==> NamedAt(m, i)
  {
    if i + 10 <= |m| {
      var part := LowerCase(m)[i..i + 10];
      assert part == LEGACY_MODEL <==> forall j: nat | j < 10 :: part[j] == LEGACY_MODEL[j];
      forall j: nat | j < 10
        ensures part[j] == LEGACY_MODEL[j] <==> m[i + j] == "gemma-4-26"[j] || m[i + j] == "GEMMA-4-26"[j]
      {
        LetterLowered(m[i + j]);
      }
    }
  }

  /** Lower-casing moves the ASCII capitals, each to its small letter, and nothing else. */
  lemma LetterLowered(c: char)
    ensures LowerCase([c])[0] == if 0x41 <= c as int <= 0x5A then (c as int + 0x20) as char else c
  {
  }

  lemma RetiredExactly(models: Value)
    ensures NamesLegacyModel(models) <==> RunsRetired(models)
  {
    if models.Texts? {
      forall m, i: nat ensures OccursAt(LowerCase(m), LEGACY_MODEL, i) <==> NamedAt(m, i) {
        OccursInLowerCase(m, i);
      }
      hide OccursAt, NamedAt, LowerCase;
      forall m ensures Contains(LowerCase(m), LEGACY_MODEL) <==> exists i: nat :: NamedAt(m, i) {
        ContainsAt(LowerCase(m), LEGACY_MODEL);
      }
    }
  }

  lemma ContainsAt(text: string, part: string)
    ensures Contains(text, part) <==> exists i: nat :: OccursAt(text, part, i)
  {
    if i: nat :| OccursAt(text, part, i) {
      assert i <= |text|;
    }
  }

  lemma AddressExactly(v: Value)
    ensures Contains(TextOf(v), LEGACY_HOST) <==> AtOldAddress(v)
  {
    ContainsIs(TextOf(v), LEGACY_HOST);
    if v.Str? {
      hide Contains;
    } else {
      EmptyContains(LEGACY_HOST);
    }
  }

  lemma EmptyContains(part: string)
    requires part != ""
    ensures !Contains("", part)
  {
  }

  /** A record a user added is migrated exactly when it names the old address and a retired model; a provider, also
      when it speaks the compatible protocol. */
  lemma LegacyExactly(r: Record)
    ensures LegacyProvider(r) <==>
            Field(r, ProviderType) == Str("openai-compatible") && AtOldAddress(Field(r, ApiBaseUrl)) &&
            RunsRetired(Field(r, AllowedModels))
    ensures LegacyNode(r) <==> AtOldAddress(Field(r, Endpoint)) && RunsRetired(Field(r, SupportedModels))
  {
    AddressExactly(Field(r, ApiBaseUrl));
    AddressExactly(Field(r, Endpoint));
    RetiredExactly(Field(r, AllowedModels));
    RetiredExactly(Field(r, SupportedModels));
    hide Contains, NamesLegacyModel, AtOldAddress, RunsRetired;
  }

  /** A migration writes the new address and model, and touches no other property. */
  lemma MigrationOutcome(kind: Registry, r: Record)
    ensures var m := Migrate(kind, r);
            match kind
            case Providers =>
              if LegacyProvider(r) then
                && Field(m, ApiBaseUrl) == Str("http://192.168.1.77:30004/v1")
                && Field(m, AllowedModels) == Texts(["Qwen3.6-35B-A3B-Q4_K_M.gguf"])
                && Field(m, PrimaryModel) == Str("Qwen3.6-35B-A3B-Q4_K_M.gguf") && Field(m, FallbackModel) == Undefined
                && Field(m, ModelContext) == GX10_CONTEXT
                && forall k: Key | k !in {ApiBaseUrl, AllowedModels, PrimaryModel, FallbackModel, ModelContext} ::
                     Field(m, k) == Field(r, k)
              else m == r
            case RuntimeNodes =>
              if LegacyNode(r) then
                && Field(m, Endpoint) == Str("http://192.168.1.77:30004/v1")
                && Field(m, SupportedModels) == Texts(["Qwen3.6-35B-A3B-Q4_K_M.gguf"])
                && Field(m, HealthState) == Str("ready") && Field(m, Notes) == MIGRATION_NOTE
                && forall k: Key | k !in {Endpoint, SupportedModels, HealthState, Notes} :: Field(m, k) == Field(r, k)
              else m == r
            case Threads => m == r
  {
    hide LegacyProvider, LegacyNode;
  }

  /** A property of the saved record, or else of the shipped one. */
  function Merged(d: Record, current: Record, k: Key): Value {
    if k in current then current[k] else Field(d, k)
  }

  lemma SpreadOver(d: Record, current: Record, imposed: Record, k: Key)
    ensures Field(d + current + imposed, k) == if k in imposed then imposed[k] else Merged(d, current, k)
  {
  }

  lemma ContractField(d: Record, k: Key)
    ensures k in ProviderContract(d) <==>
            k in {AllowedModels, ModelContext, ConsumerScopes, AuthMethod, AuthTier, ProviderType}
    ensures k in ProviderContract(d) ==> ProviderContract(d)[k] == Field(d, k)
  {
  }

  lemma NodeContractField(d: Record, k: Key)
    ensures k in NodeContract(d) <==>
            k in {Kind, Locality, ProviderProfileId, SupportedModels, AuthTier, DeployableOnDemand, Notes}
    ensures k in NodeContract(d) ==> NodeContract(d)[k] == Field(d, k)
  {
  }

  lemma ChoiceField(d: Record, current: Record, k: Key)
    ensures k in ProviderChoices(d, current) <==> k in {ApiBaseUrl, PrimaryModel, FallbackModel}
    ensures k == ApiBaseUrl ==>
              ProviderChoices(d, current)[k] == Field(if IdOf(d) == Str("gx10-local-llama") then d else current, k)
    ensures k == PrimaryModel ==> ProviderChoices(d, current)[k] == ChosenModel(d, current)
    ensures k == FallbackModel ==> ProviderChoices(d, current)[k] == ChosenFallback(d, current)
  {
    hide ChosenModel, ChosenFallback;
  }

  lemma ChosenModelIs(d: Record, current: Record)
    ensures var model := Field(current, PrimaryModel);
            var retired := IdOf(d) == Str("shared-minimax") &&
                           model in {Str("MiniMax-M2.7"), Str("MiniMax-M2.7-highspeed")};
            ChosenModel(d, current) ==
            Field(if Listed(Field(d, AllowedModels), model) && !retired then current else d, PrimaryModel)
  {
  }

  lemma ChosenFallbackIs(d: Record, current: Record)
    ensures var model := Field(current, FallbackModel);
            ChosenFallback(d, current) ==
            Field(if Listed(Field(d, AllowedModels), model) && model != Str("") then current else d, FallbackModel)
  {
  }

  /** A shipped provider merged with a saved one, property by property. */
  lemma ProviderOutcome(d: Record, current: Record, k: Key)
    ensures var value := Field(Entry(Providers, d, Some(current)), k);
            var allowed := Field(d, AllowedModels);
            match k
            case AllowedModels => value == allowed
            case ModelContext => value == Field(d, k)
            case ConsumerScopes => value == Field(d, k)
            case AuthMethod => value == Field(d, k)
            case AuthTier => value == Field(d, k)
            case ProviderType => value == Field(d, k)
            case ApiBaseUrl => value == Field(if IdOf(d) == Str("gx10-local-llama") then d else current, k)
            case PrimaryModel =>
              var retired := IdOf(d) == Str("shared-minimax") &&
                             Field(current, k) in {Str("MiniMax-M2.7"), Str("MiniMax-M2.7-highspeed")};
              value == Field(if Listed(allowed, Field(current, k)) && !retired then current else d, k)
            case FallbackModel =>
              var kept := Listed(allowed, Field(current, k)) && Field(current, k) != Str("");
              value == Field(if kept then current else d, k)
            case _ => value == Merged(d, current, k)
  {
    var imposed := ProviderContract(d) + ProviderChoices(d, current);
    assert Entry(Providers, d, Some(current)) == d + current + imposed;
    hide Entry;
    SpreadOver(d, current, imposed, k);
    ContractField(d, k);
    ChoiceField(d, current, k);
    ChosenModelIs(d, current);
    ChosenFallbackIs(d, current);
    hide ProviderContract, ProviderChoices, ChosenModel, ChosenFallback, Listed, Merged, Field, Stored;
  }

  ghost predicate Listed(models: Value, model: Value) {
    models.Texts? && exists m <- models.texts :: model == Str(m)
  }

  /** A shipped node merged with a saved one: the GX10 node, when its saved address is another one, also takes back
      the shipped address and health. */
  lemma NodeOutcome(d: Record, current: Record, k: Key)
    ensures var value := Field(Entry(RuntimeNodes, d, Some(current)), k);
            var moved := IdOf(d) == Str("node-gx10-qwen") && Endpoint in current &&
                         current[Endpoint] != Field(d, Endpoint);
            if k in {Kind, Locality, ProviderProfileId, SupportedModels, AuthTier, DeployableOnDemand, Notes} then
              value == Field(d, k)
            else if k in {Endpoint, HealthState} && moved then value == Field(d, k)
            else value == Merged(d, current, k)
  {
    var imposed := ImposedOnNode(d, current);
    assert Entry(RuntimeNodes, d, Some(current)) == d + current + imposed;
    hide Entry;
    SpreadOver(d, current, imposed, k);
    NodeContractField(d, k);
    assert Field(d + current, Endpoint) == Merged(d, current, Endpoint);
    hide NodeContract;
  }

  /** The tests on values that the merges make. */
  lemma TestsAre(profile: Record, v: Value)
    ensures Truthy(v) <==> v !in {Undefined, Null, Flag(false), Str("")}
    ensures v.Str? ==> (LegacyMinimax(v.text) <==> v in {Str("MiniMax-M2.7"), Str("MiniMax-M2.7-highspeed")})
    ensures Allows(profile, v) <==>
            exists models: seq<string>, m: string ::
              Field(profile, AllowedModels) == Texts(models) && m in models && v == Str(m)
  {
    match v {
      case Flag(on) => assert !on ==> v == Flag(false);
      case Undefined =>
      case Null =>
      case Str(text) =>
      case Texts(_) =>
      case Route(_, _) =>
      case ChannelMetadata(_, _) =>
      case Structure(_) =>
    }
  }

  function Find(kind: Registry, list: seq<Record>, id: Value): Option<Record> {
    if kind.Threads? then FindLast(list, id) else FindFirst(list, id)
  }

  function Dropped(kind: Registry, defaults: seq<Record>): set<Value> {
    if kind.RuntimeNodes? then Ids(defaults) + {RETIRED_NODE} else Ids(defaults)
  }

  function Shipped(kind: Registry, saved: seq<Record>, defaults: seq<Record>): seq<Record> {
    seq(|defaults|, i requires 0 <= i < |defaults| => Entry(kind, defaults[i], Find(kind, saved, IdOf(defaults[i]))))
  }

  function Added(kind: Registry, saved: seq<Record>, defaults: seq<Record>): seq<Record> {
    var others := Others(saved, Dropped(kind, defaults));
    seq(|others|, i requires 0 <= i < |others| => Migrate(kind, others[i]))
  }

  /** `normalizeProviders`, `normalizeRuntimeNodes` and `mergeConversationThreads`. A missing saved
      list behaves as an empty one. */
  function Normalized(kind: Registry, saved: seq<Record>, defaults: seq<Record>): seq<Record> {
    Shipped(kind, saved, defaults) + Added(kind, saved, defaults)
  }

  lemma Found(kind: Registry, list: seq<Record>, id: Value)
    ensures var found := Find(kind, list, id);
            found.Some? ==> found.value in list && IdOf(found.value) == id
  {
    FoundFirst(list, id);
    FoundLast(list, id);
  }

  /** The new GX10 address does not contain the old one, so a migrated record is not migrated again. */
  lemma NewEndpointIsNotLegacy()
    ensures !Contains(GX10_ENDPOINT, LEGACY_HOST)
  {
    forall i: nat | i + |LEGACY_HOST| <= |GX10_ENDPOINT|
      ensures !OccursAt(GX10_ENDPOINT, LEGACY_HOST, i)
    {
      var part := GX10_ENDPOINT[i..i + |LEGACY_HOST|];
      assert part[0] == GX10_ENDPOINT[i] && part[17] == GX10_ENDPOINT[i + 17];
      assert LEGACY_HOST[0] == '1' && LEGACY_HOST[17] == '0';
    }
  }

  // ----- one record settles -----

  /** A merge with the same shipped record settles when what is imposed the second time is what the
      first result already says. */
  lemma MergeSettles(d: Record, current: Record, imposed: Record, again: Record, saved: bool)
    requires saved ==> Parsed(current)
    requires var first := d + current + imposed; forall k <- again :: again[k] == Field(first, k)
    requires forall k <- imposed :: k in again || imposed[k] == Field(d, k)
    ensures var first := d + current + imposed; Alike(d + Reread(first, saved) + again, first)
  {
    var first := d + current + imposed;
    var next := d + Reread(first, saved) + again;
    forall k
      ensures Field(next, k) == Field(first, k)
    {
      if k !in again && k in first && first[k] == Undefined && k !in imposed {
        assert k in current ==> current[k] == first[k];
      }
    }
  }

  lemma ChosenAgain(d: Record, current: Record, seen: Record)
    requires Field(seen, PrimaryModel) == ChosenModel(d, current) || Field(seen, PrimaryModel) == Field(d, PrimaryModel)
    requires Field(seen, FallbackModel) == ChosenFallback(d, current)
             || Field(seen, FallbackModel) == Field(d, FallbackModel)
    ensures ChosenModel(d, seen) == Field(seen, PrimaryModel)
    ensures ChosenFallback(d, seen) == Field(seen, FallbackModel)
  {
  }

  lemma LastSpreadWins(base: Record, last: Record)
    ensures forall k <- last :: last[k] == Field(base + last, k)
  {
  }

  lemma SpreadAssociates(a: Record, b: Record, c: Record)
    ensures a + (b + c) == a + b + c
  {
  }

  lemma ProviderChoicesAgain(d: Record, current: Record, seen: Record)
    requires forall k <- ProviderChoices(d, current) :: Field(seen, k) == ProviderChoices(d, current)[k]
    ensures ProviderChoices(d, seen) == ProviderChoices(d, current)
  {
    assert Field(seen, ApiBaseUrl) == ProviderChoices(d, current)[ApiBaseUrl];
    assert Field(seen, PrimaryModel) == ProviderChoices(d, current)[PrimaryModel];
    assert Field(seen, FallbackModel) == ProviderChoices(d, current)[FallbackModel];
    ChosenAgain(d, current, seen);
    hide ChosenModel, ChosenFallback;
  }

  lemma ProviderImposedAgain(d: Record, current: Record, seen: Record)
    requires Alike(seen, d + current + ImposedOnProvider(d, current))
    ensures ImposedOnProvider(d, seen) == ImposedOnProvider(d, current)
  {
    hide ProviderContract, ProviderChoices, Field;
    var base := d + current;
    SpreadAssociates(base, ProviderContract(d), ProviderChoices(d, current));
    LastSpreadWins(base + ProviderContract(d), ProviderChoices(d, current));
    ProviderChoicesAgain(d, current, seen);
  }

  lemma ProviderSettles(d: Record, current: Record, saved: bool)
    requires saved ==> Parsed(current)
    ensures var first := d + current + ImposedOnProvider(d, current);
            var seen := Reread(first, saved);
            Alike(d + seen + ImposedOnProvider(d, seen), first)
  {
    var first := d + current + ImposedOnProvider(d, current);
    var seen := Reread(first, saved);
    RereadAlike(first, saved);
    ProviderImposedAgain(d, current, seen);
    LastSpreadWins(d + current, ImposedOnProvider(d, current));
    hide *;
    MergeSettles(d, current, ImposedOnProvider(d, current), ImposedOnProvider(d, seen), saved);
  }

  lemma ProviderContractIsShipped(d: Record)
    ensures forall k <- ProviderContract(d) :: ProviderContract(d)[k] == Field(d, k)
  {
  }

  lemma ProviderChoicesOnShipped(d: Record, seen: Record)
    requires Alike(seen, d)
    ensures forall k <- ProviderChoices(d, seen) :: ProviderChoices(d, seen)[k] == Field(d, k)
  {
    assert Field(seen, ApiBaseUrl) == Field(d, ApiBaseUrl);
    assert Field(seen, PrimaryModel) == Field(d, PrimaryModel);
    assert Field(seen, FallbackModel) == Field(d, FallbackModel);
    ChosenAgain(d, d, seen);
    hide ChosenModel, ChosenFallback, Alike;
  }

  lemma ShippedProviderSettles(d: Record, saved: bool)
    ensures Alike(d + Reread(d, saved) + ImposedOnProvider(d, Reread(d, saved)), d)
  {
    var seen := Reread(d, saved);
    RereadAlike(d, saved);
    hide Reread, ProviderContract, ProviderChoices, Field, Alike;
    ProviderContractIsShipped(d);
    ProviderChoicesOnShipped(d, seen);
    assert forall k <- ImposedOnProvider(d, seen) :: ImposedOnProvider(d, seen)[k] == Field(d, k);
    hide *;
    assert d + map[] + map[] == d;
    MergeSettles(d, map[], map[], ImposedOnProvider(d, seen), saved);
  }

  lemma NodeImposedAgain(d: Record, current: Record, seen: Record)
    requires Alike(seen, d + current + ImposedOnNode(d, current))
    ensures ImposedOnNode(d, seen) == NodeContract(d)
  {
    assert Field(seen, Endpoint) == Field(d + current + ImposedOnNode(d, current), Endpoint);
    assert Endpoint !in NodeContract(d);
    hide NodeContract, Alike;
  }

  lemma NodeImposedParts(d: Record, current: Record)
    ensures var imposed := ImposedOnNode(d, current);
            && (forall k <- NodeContract(d) :: k in imposed && imposed[k] == NodeContract(d)[k])
            && (forall k <- imposed :: k in NodeContract(d) || imposed[k] == Field(d, k))
  {
    assert Endpoint !in NodeContract(d) && HealthState !in NodeContract(d);
    hide NodeContract;
  }

  lemma NodeSettles(d: Record, current: Record, saved: bool)
    requires saved ==> Parsed(current)
    ensures var first := d + current + ImposedOnNode(d, current);
            var seen := Reread(first, saved);
            Alike(d + seen + ImposedOnNode(d, seen), first)
  {
    var imposed := ImposedOnNode(d, current);
    var first := d + current + imposed;
    var seen := Reread(first, saved);
    RereadAlike(first, saved);
    NodeImposedAgain(d, current, seen);
    LastSpreadWins(d + current, imposed);
    NodeImposedParts(d, current);
    hide *;
    MergeSettles(d, current, imposed, NodeContract(d), saved);
  }

  lemma NodeContractIsShipped(d: Record)
    ensures forall k <- NodeContract(d) :: NodeContract(d)[k] == Field(d, k)
  {
  }

  lemma ShippedNodeSettles(d: Record, saved: bool)
    ensures Alike(d + Reread(d, saved) + ImposedOnNode(d, Reread(d, saved)), d)
  {
    var seen := Reread(d, saved);
    NodeContractIsShipped(d);
    NodeImposedParts(d, seen);
    assert forall k <- ImposedOnNode(d, seen) :: ImposedOnNode(d, seen)[k] == Field(d, k) by {
      hide ImposedOnNode, NodeContract, Reread, Field;
    }
    hide *;
    assert d + map[] + map[] == d;
    MergeSettles(d, map[], map[], ImposedOnNode(d, seen), saved);
  }

  lemma EntrySettles(kind: Registry, d: Record, current: Option<Record>, saved: bool)
    requires saved && current.Some? ==> Parsed(current.value)
    ensures var first := Entry(kind, d, current);
            Alike(Entry(kind, d, Some(Reread(first, saved))), first)
  {
    match kind
    case Providers =>
      hide ImposedOnProvider, Reread, Alike, Parsed;
      if current.Some? { ProviderSettles(d, current.value, saved); } else { ShippedProviderSettles(d, saved); }
    case RuntimeNodes =>
      hide ImposedOnNode, Reread, Alike, Parsed;
      if current.Some? { NodeSettles(d, current.value, saved); } else { ShippedNodeSettles(d, saved); }
    case Threads =>
      assert d + map[] + map[] == d;
      MergeSettles(d, if current.Some? then current.value else map[], map[], map[], saved);
  }

  lemma EntryKeepsId(kind: Registry, d: Record, current: Option<Record>)
    requires current.Some? ==> IdOf(current.value) == IdOf(d)
    ensures IdOf(Entry(kind, d, current)) == IdOf(d)
  {
    if current.Some? {
      assert Id !in Imposed(kind, d, current.value);
      hide Imposed;
    }
  }

  lemma MigrateKeepsId(kind: Registry, r: Record)
    ensures IdOf(Migrate(kind, r)) == IdOf(r)
  {
    hide LegacyProvider, LegacyNode;
  }

  lemma MigrateSettles(kind: Registry, r: Record, saved: bool)
    ensures var first := Migrate(kind, r); Migrate(kind, Reread(first, saved)) == Reread(first, saved)
  {
    hide Contains, NamesLegacyModel;
    NewEndpointIsNotLegacy();
    var first := Migrate(kind, r);
    RereadAlike(first, saved);
    var seen := Reread(first, saved);
    assert Field(seen, ApiBaseUrl) == Field(first, ApiBaseUrl);
    assert Field(seen, AllowedModels) == Field(first, AllowedModels);
    assert Field(seen, ProviderType) == Field(first, ProviderType);
    assert Field(seen, Endpoint) == Field(first, Endpoint);
    assert Field(seen, SupportedModels) == Field(first, SupportedModels);
    hide Reread, Alike;
  }

  // ----- whole registries settle -----

  lemma ShippedAt(kind: Registry, saved: seq<Record>, defaults: seq<Record>, i: nat)
    requires i < |defaults|
    ensures IdOf(Normalized(kind, saved, defaults)[i]) == IdOf(defaults[i])
    ensures IdOf(defaults[i]) in Ids(defaults)
  {
    Found(kind, saved, IdOf(defaults[i]));
    EntryKeepsId(kind, defaults[i], Find(kind, saved, IdOf(defaults[i])));
    hide Entry, Find;
  }

  lemma NormalizedShape(kind: Registry, saved: seq<Record>, defaults: seq<Record>)
    ensures var others, first := Others(saved, Dropped(kind, defaults)), Normalized(kind, saved, defaults);
            |first| == |defaults| + |others|
            && forall i: nat :: |defaults| <= i < |first| ==> first[i] == Migrate(kind, others[i - |defaults|])
  {
    hide Migrate, Others, Entry, Dropped, Find;
  }

  lemma AddedAt(kind: Registry, saved: seq<Record>, defaults: seq<Record>, i: nat)
    requires |defaults| <= i < |Normalized(kind, saved, defaults)|
    ensures var others := Others(saved, Dropped(kind, defaults));
            |defaults| + |others| == |Normalized(kind, saved, defaults)|
            && Normalized(kind, saved, defaults)[i] == Migrate(kind, others[i - |defaults|])
            && IdOf(Normalized(kind, saved, defaults)[i]) !in Dropped(kind, defaults)
  {
    var others := Others(saved, Dropped(kind, defaults));
    NormalizedShape(kind, saved, defaults);
    OthersAre(saved, Dropped(kind, defaults));
    assert others[i - |defaults|] in others;
    MigrateKeepsId(kind, others[i - |defaults|]);
    hide *;
  }

  /** The normalised list finds each shipped record at its own place ... */
  lemma FindsShipped(kind: Registry, saved: seq<Record>, defaults: seq<Record>, again: bool, i: nat)
    requires DistinctIds(defaults) && i < |defaults|
    ensures var seen := RereadAll(Normalized(kind, saved, defaults), again);
            Find(kind, seen, IdOf(defaults[i])) == Some(seen[i])
  {
    var first := Normalized(kind, saved, defaults);
    var seen := RereadAll(first, again);
    ShippedAt(kind, saved, defaults, i);
    forall j: nat | j < |seen| && j != i
      ensures IdOf(seen[j]) != IdOf(seen[i])
    {
      RereadAlike(first[i], again);
      RereadAlike(first[j], again);
      if j < |defaults| {
        ShippedAt(kind, saved, defaults, j);
      } else {
        AddedAt(kind, saved, defaults, j);
      }
      hide Normalized, Reread, Alike;
    }
    RereadAlike(first[i], again);
    hide Normalized, Reread;
    if kind.Threads? {
      LastIs(seen, i);
    } else {
      FirstIs(seen, i);
    }
  }

  /** ... and the added records after them. */
  lemma FindsAdded(kind: Registry, saved: seq<Record>, defaults: seq<Record>, again: bool)
    ensures var seen := RereadAll(Normalized(kind, saved, defaults), again);
            |defaults| <= |seen| && Others(seen, Dropped(kind, defaults)) == seen[|defaults|..]
  {
    var first := Normalized(kind, saved, defaults);
    var seen := RereadAll(first, again);
    forall i: nat | i < |seen|
      ensures IdOf(seen[i]) in Dropped(kind, defaults) <==> i < |defaults|
    {
      RereadAlike(first[i], again);
      if i < |defaults| {
        ShippedAt(kind, saved, defaults, i);
      } else {
        AddedAt(kind, saved, defaults, i);
      }
      hide Normalized, Reread, Alike, Ids;
    }
    hide Dropped;
    OthersSkip(seen, |defaults|, Dropped(kind, defaults));
  }

  lemma ShippedStable(kind: Registry, saved: seq<Record>, defaults: seq<Record>, again: bool, i: nat)
    requires DistinctIds(defaults) && i < |defaults|
    requires again ==> AllParsed(saved)
    ensures var first := Normalized(kind, saved, defaults);
            Alike(Normalized(kind, RereadAll(first, again), defaults)[i], first[i])
  {
    var current := Find(kind, saved, IdOf(defaults[i]));
    Found(kind, saved, IdOf(defaults[i]));
    EntrySettles(kind, defaults[i], current, again);
    FindsShipped(kind, saved, defaults, again, i);
    hide Entry, Reread, Find, Alike, Others, Migrate;
  }

  /** Normalising a normalised registry changes no property of any record, whether it is normalised
      in memory or after being saved and read back. */
  lemma NormalizedStable(kind: Registry, saved: seq<Record>, defaults: seq<Record>, again: bool)
    requires DistinctIds(defaults)
    requires again ==> AllParsed(saved)
    ensures var first := Normalized(kind, saved, defaults);
            AllAlike(Normalized(kind, RereadAll(first, again), defaults), first)
  {
    var first := Normalized(kind, saved, defaults);
    var seen := RereadAll(first, again);
    var next := Normalized(kind, seen, defaults);
    FindsAdded(kind, saved, defaults, again);
    forall i: nat | i < |first|
      ensures i < |next| && Alike(next[i], first[i])
    {
      if i < |defaults| {
        ShippedStable(kind, saved, defaults, again, i);
      } else {
        AddedAt(kind, saved, defaults, i);
        AddedAt(kind, seen, defaults, i);
        MigrateSettles(kind, Others(saved, Dropped(kind, defaults))[i - |defaults|], again);
        RereadAlike(first[i], again);
      }
      hide Migrate, Reread, Alike, Others, Shipped, Dropped;
    }
    hide Migrate, Reread, Alike, Others, Shipped, Dropped;
    assert |next| == |first|;
  }

  /** The retired GX10 node is in a normalised registry only if it is shipped again. */
  lemma RetiredNodeStaysOut(saved: seq<Record>, defaults: seq<Record>)
    ensures RETIRED_NODE in Ids(Normalized(RuntimeNodes, saved, defaults)) <==> RETIRED_NODE in Ids(defaults)
  {
    var first := Normalized(RuntimeNodes, saved, defaults);
    forall i: nat | i < |first|
      ensures IdOf(first[i]) == RETIRED_NODE ==> RETIRED_NODE in Ids(defaults)
    {
      if i < |defaults| {
        ShippedAt(RuntimeNodes, saved, defaults, i);
      } else {
        AddedAt(RuntimeNodes, saved, defaults, i);
      }
      hide Normalized;
    }
    if RETIRED_NODE in Ids(defaults) {
      var i: nat :| i < |defaults| && IdOf(defaults[i]) == RETIRED_NODE;
      ShippedAt(RuntimeNodes, saved, defaults, i);
      assert first[i] in first;
      hide Normalized;
    }
  }

  /** No id is lost or invented: the registry holds the shipped ids and the saved ones that are not retired. */
  lemma IdsKept(kind: Registry, saved: seq<Record>, defaults: seq<Record>)
    ensures Ids(Normalized(kind, saved, defaults)) == Ids(defaults) + (Ids(saved) - Dropped(kind, defaults))
  {
    var first := Normalized(kind, saved, defaults);
    var others := Others(saved, Dropped(kind, defaults));
    OthersAre(saved, Dropped(kind, defaults));
    forall i: nat | i < |first|
      ensures IdOf(first[i]) == if i < |defaults| then IdOf(defaults[i]) else IdOf(others[i - |defaults|])
    {
      if i < |defaults| {
        ShippedAt(kind, saved, defaults, i);
      } else {
        AddedAt(kind, saved, defaults, i);
        MigrateKeepsId(kind, others[i - |defaults|]);
      }
      hide Migrate, Shipped, Dropped, Others;
    }
    assert |first| == |defaults| + |others|;
    hide Normalized, Dropped, Others;
    IdsInOrder(first, defaults, others);
    forall id
      ensures id in Ids(others) <==> id in Ids(saved) - Dropped(kind, defaults)
    {
    }
  }

  lemma IdsInOrder(list: seq<Record>, front: seq<Record>, back: seq<Record>)
    requires |list| == |front| + |back|
    requires forall i: nat :: i < |list| ==>
               IdOf(list[i]) == if i < |front| then IdOf(front[i]) else IdOf(back[i - |front|])
    ensures Ids(list) == Ids(front) + Ids(back)
  {
    forall i: nat | i < |front| ensures IdOf(front[i]) in Ids(list) { assert list[i] in list; }
    forall i: nat | i < |back| ensures IdOf(back[i]) in Ids(list) {
      assert list[|front| + i] in list;
      assert IdOf(list[|front| + i]) == IdOf(back[i]);
    }
    hide IdOf;
  }

  /** Whatever was saved, a shipped provider uses a model it allows - and the shared MiniMax profile no
      retired one - provided this is so of the shipped profile. */
  lemma ShippedModelsHold(saved: seq<Record>, defaults: seq<Record>, i: nat)
    requires i < |defaults| && Allows(defaults[i], Field(defaults[i], PrimaryModel))
    ensures var r := Normalized(Providers, saved, defaults)[i];
            && Field(r, AllowedModels) == Field(defaults[i], AllowedModels)
            && Allows(r, Field(r, PrimaryModel))
    ensures var model := Field(Normalized(Providers, saved, defaults)[i], PrimaryModel);
            IdOf(defaults[i]) == SHARED_MINIMAX && LegacyMinimax(model.text)
            ==> LegacyMinimax(Field(defaults[i], PrimaryModel).text)
  {
    var d := defaults[i];
    var current := FindFirst(saved, IdOf(d));
    hide FindFirst, Added, LegacyMinimax;
    assert Normalized(Providers, saved, defaults)[i] == Entry(Providers, d, current);
    if current.Some? {
      var r := Entry(Providers, d, current);
      assert AllowedModels in ProviderContract(d) && AllowedModels !in ProviderChoices(d, current.value);
      assert PrimaryModel in ProviderChoices(d, current.value);
      assert Field(r, AllowedModels) == Field(d, AllowedModels);
      assert Field(r, PrimaryModel) == ChosenModel(d, current.value);
      hide ChosenFallback;
    }
  }

  /** The properties of a shipped record that a saved one may not simply replace. */
  function Guarded(kind: Registry): set<Key> {
    match kind
    case Providers => {AllowedModels, ModelContext, ConsumerScopes, AuthMethod, AuthTier, ProviderType,
                       ApiBaseUrl, PrimaryModel, FallbackModel}
    case RuntimeNodes => {Kind, Locality, ProviderProfileId, SupportedModels, AuthTier, DeployableOnDemand, Notes,
                          Endpoint, HealthState}
    case Threads => {}
  }

  lemma ImposedWithinGuarded(kind: Registry, d: Record, current: Record)
    ensures Imposed(kind, d, current).Keys <= Guarded(kind)
  {
    hide ChosenModel, ChosenFallback;
  }

  /** What was saved of a shipped record is kept, and what was not saved is as shipped. */
  lemma SavedPropertiesKept(kind: Registry, saved: seq<Record>, defaults: seq<Record>, i: nat, k: Key)
    requires i < |defaults| && k !in Guarded(kind)
    ensures var current := Find(kind, saved, IdOf(defaults[i]));
            Field(Normalized(kind, saved, defaults)[i], k)
            == if current.Some? && k in current.value then current.value[k] else Field(defaults[i], k)
  {
    var current := Find(kind, saved, IdOf(defaults[i]));
    assert Normalized(kind, saved, defaults)[i] == Entry(kind, defaults[i], current) by { hide Entry, Find; }
    if current.Some? {
      ImposedWithinGuarded(kind, defaults[i], current.value);
      hide Imposed, Find, Guarded;
    }
  }

  /** A saved choice of an allowed, current model is kept. */
  lemma SavedModelsKept(d: Record, current: Record)
    ensures var r := Entry(Providers, d, Some(current));
            && (Allows(d, Field(current, PrimaryModel)) && !LegacyMinimax(Field(current, PrimaryModel).text)
                ==> Field(r, PrimaryModel) == Field(current, PrimaryModel))
            && (Truthy(Field(current, FallbackModel)) && Allows(d, Field(current, FallbackModel))
                ==> Field(r, FallbackModel) == Field(current, FallbackModel))
            && Field(r, ApiBaseUrl) == Field(if IdOf(d) == GX10_PROVIDER then d else current, ApiBaseUrl)
  {
    hide LegacyMinimax, ProviderContract;
    assert PrimaryModel in ProviderChoices(d, current) && FallbackModel in ProviderChoices(d, current)
           && ApiBaseUrl in ProviderChoices(d, current);
  }

  /** A record the user added is kept, in the migrated form if it is a legacy one. */
  lemma AdditionsKept(kind: Registry, saved: seq<Record>, defaults: seq<Record>)
    ensures Normalized(kind, saved, defaults)[|defaults|..] == Added(kind, saved, defaults)
    ensures forall r <- saved | IdOf(r) !in Dropped(kind, defaults) ::
              Migrate(kind, r) in Normalized(kind, saved, defaults)
  {
    var others := Others(saved, Dropped(kind, defaults));
    var first := Normalized(kind, saved, defaults);
    OthersAre(saved, Dropped(kind, defaults));
    NormalizedShape(kind, saved, defaults);
    hide Migrate, Others, Shipped, Dropped;
    forall r <- saved | IdOf(r) !in Dropped(kind, defaults)
      ensures Migrate(kind, r) in first
    {
      assert r in others;
      var i: nat :| i < |others| && others[i] == r;
      assert first[|defaults| + i] == Migrate(kind, r);
    }
  }

  // ----- agents -----

  const ENGINEER := Str("engineer.core")
  const SETUP := Str("setup.core")

  function OrEmpty(r: Option<Record>): Record {
    if r.Some? then r.value else map[]
  }

  /** The setup agent's provider: taken over from the engineer agent of older releases when the setup
      agent itself has none, or still has the shared MiniMax profile. */
  function TakenOver(k: Key, agent: Record, current: Record, legacy: Record): Value {
    if Field(current, ProviderProfileId) == SHARED_MINIMAX && Truthy(Field(legacy, k)) then Field(legacy, k)
    else Nullish(Nullish(Field(current, k), Field(legacy, k)), Field(agent, k))
  }

  function ImposedOnSetup(agent: Record, current: Record, legacy: Record): Record {
    map[
      Id := SETUP,
      DisplayName := Field(agent, DisplayName),
      ProviderProfileId := TakenOver(ProviderProfileId, agent, current, legacy),
      FallbackProviderProfileId := TakenOver(FallbackProviderProfileId, agent, current, legacy),
      ArchiveReadScopes := Field(agent, ArchiveReadScopes),
      ArchiveIntakeWriteScopes := Field(agent, ArchiveIntakeWriteScopes),
      ChannelIds := Field(agent, ChannelIds)]
  }

  function ImposedOnAgent(agent: Record): Record {
    map[
      Id := IdOf(agent),
      ChannelIds := Field(agent, ChannelIds),
      ArchiveReadScopes := Field(agent, ArchiveReadScopes),
      ArchiveIntakeWriteScopes := Field(agent, ArchiveIntakeWriteScopes)]
  }

  function NormalizeAgent(agent: Record, current: Option<Record>, legacy: Option<Record>): Record {
    if IdOf(agent) == SETUP then
      agent + OrEmpty(if legacy.Some? then legacy else current)
      + ImposedOnSetup(agent, OrEmpty(current), OrEmpty(legacy))
    else agent + OrEmpty(current) + ImposedOnAgent(agent)
  }

  /** `normalizeAgents`. */
  function NormalizeAgents(saved: seq<Record>, defaults: seq<Record>): seq<Record> {
    seq(|defaults|, i requires 0 <= i < |defaults| =>
      NormalizeAgent(defaults[i], FindLast(saved, IdOf(defaults[i])), FindLast(saved, ENGINEER)))
  }

  /** An agent merged with what was saved of it, property by property. The setup agent takes the engineer's record of
      older releases for its own, if there is one; its providers are its own saved ones, then the engineer's, then the
      shipped ones, but the engineer's come first while its own is still the shared MiniMax profile. */
  lemma AgentOutcome(agent: Record, current: Option<Record>, legacy: Option<Record>, k: Key)
    ensures var value := Field(NormalizeAgent(agent, current, legacy), k);
            var setup := IdOf(agent) == Str("setup.core");
            var mine, theirs := Field(OrEmpty(current), k), Field(OrEmpty(legacy), k);
            var shared := Field(OrEmpty(current), ProviderProfileId) == Str("shared-minimax");
            if k in {Id, ArchiveReadScopes, ArchiveIntakeWriteScopes, ChannelIds} then value == Field(agent, k)
            else if setup && k == DisplayName then value == Field(agent, k)
            else if setup && k in {ProviderProfileId, FallbackProviderProfileId} then
              value == (if shared && theirs !in {Undefined, Null, Flag(false), Str("")} then theirs
                        else if mine !in {Undefined, Null} then mine
                        else if theirs !in {Undefined, Null} then theirs
                        else Field(agent, k))
            else value == Merged(agent, OrEmpty(if setup && legacy != None then legacy else current), k)
  {
    TestsAre(agent, Field(OrEmpty(legacy), k));
    var setup := IdOf(agent) == SETUP;
    var base := OrEmpty(if setup && legacy != None then legacy else current);
    var imposed := if setup then ImposedOnSetup(agent, OrEmpty(current), OrEmpty(legacy)) else ImposedOnAgent(agent);
    assert NormalizeAgent(agent, current, legacy) == agent + base + imposed;
    hide NormalizeAgent;
    SpreadOver(agent, base, imposed, k);
    if setup { SetupField(agent, OrEmpty(current), OrEmpty(legacy), k); }
    AgentField(agent, k);
    hide ImposedOnSetup, ImposedOnAgent, Truthy, Merged, OrEmpty;
  }

  lemma AgentField(agent: Record, k: Key)
    ensures k in ImposedOnAgent(agent) <==> k in {Id, ArchiveReadScopes, ArchiveIntakeWriteScopes, ChannelIds}
    ensures k in ImposedOnAgent(agent) ==> ImposedOnAgent(agent)[k] == Field(agent, k)
  {
  }

  lemma SetupField(agent: Record, current: Record, legacy: Record, k: Key)
    requires IdOf(agent) == SETUP
    ensures k in ImposedOnSetup(agent, current, legacy) <==>
            k in {Id, DisplayName, ArchiveReadScopes, ArchiveIntakeWriteScopes, ChannelIds,
                  ProviderProfileId, FallbackProviderProfileId}
    ensures k in {Id, DisplayName, ArchiveReadScopes, ArchiveIntakeWriteScopes, ChannelIds} ==>
              ImposedOnSetup(agent, current, legacy)[k] == Field(agent, k)
    ensures k in {ProviderProfileId, FallbackProviderProfileId} ==>
              ImposedOnSetup(agent, current, legacy)[k] == TakenOver(k, agent, current, legacy)
  {
    hide TakenOver;
  }

  lemma SetupImposedAgain(agent: Record, current: Record, legacy: Record, seen: Record)
    requires Field(seen, ProviderProfileId) == TakenOver(ProviderProfileId, agent, current, legacy)
    requires Field(seen, FallbackProviderProfileId) == TakenOver(FallbackProviderProfileId, agent, current, legacy)
    ensures ImposedOnSetup(agent, seen, map[]) == ImposedOnSetup(agent, current, legacy)
  {
    assert TakenOver(ProviderProfileId, agent, seen, map[]) == Field(seen, ProviderProfileId);
    assert TakenOver(FallbackProviderProfileId, agent, seen, map[]) == Field(seen, FallbackProviderProfileId);
    hide TakenOver;
  }

  lemma SetupSettles(agent: Record, current: Record, legacy: Record, base: Record, again: bool)
    requires again ==> Parsed(base)
    ensures var first := agent + base + ImposedOnSetup(agent, current, legacy);
            var seen := Reread(first, again);
            Alike(agent + seen + ImposedOnSetup(agent, seen, map[]), first)
  {
    var imposed := ImposedOnSetup(agent, current, legacy);
    var first := agent + base + imposed;
    var seen := Reread(first, again);
    LastSpreadWins(agent + base, imposed);
    RereadAlike(first, again);
    assert forall k <- imposed :: Field(seen, k) == imposed[k];
    assert Field(seen, ProviderProfileId) == imposed[ProviderProfileId];
    assert Field(seen, FallbackProviderProfileId) == imposed[FallbackProviderProfileId];
    SetupImposedAgain(agent, current, legacy, seen);
    hide *;
    MergeSettles(agent, base, imposed, imposed, again);
  }

  lemma PlainAgentSettles(agent: Record, base: Record, again: bool)
    requires again ==> Parsed(base)
    ensures var first := agent + base + ImposedOnAgent(agent);
            Alike(agent + Reread(first, again) + ImposedOnAgent(agent), first)
  {
    LastSpreadWins(agent + base, ImposedOnAgent(agent));
    hide *;
    MergeSettles(agent, base, ImposedOnAgent(agent), ImposedOnAgent(agent), again);
  }

  lemma AgentSettles(agent: Record, current: Option<Record>, legacy: Option<Record>, again: bool)
    requires again && current.Some? ==> Parsed(current.value)
    requires again && legacy.Some? ==> Parsed(legacy.value)
    ensures var first := NormalizeAgent(agent, current, legacy);
            Alike(NormalizeAgent(agent, Some(Reread(first, again)), None), first)
  {
    hide Reread, ImposedOnSetup, ImposedOnAgent, Alike;
    var base := OrEmpty(if IdOf(agent) == SETUP && legacy.Some? then legacy else current);
    if IdOf(agent) == SETUP {
      SetupSettles(agent, OrEmpty(current), OrEmpty(legacy), base, again);
    } else {
      PlainAgentSettles(agent, base, again);
    }
  }

  lemma AgentKeepsId(agent: Record, current: Option<Record>, legacy: Option<Record>)
    ensures IdOf(NormalizeAgent(agent, current, legacy)) == IdOf(agent)
  {
    hide TakenOver, OrEmpty;
  }

  lemma {:induction false} LastMissing(list: seq<Record>, id: Value)
    requires forall i: nat :: i < |list| ==> IdOf(list[i]) != id
    ensures FindLast(list, id) == None
    decreases |list|
  {
    if list != [] {
      assert IdOf(list[|list| - 1]) != id;
      LastMissing(list[..|list| - 1], id);
    }
  }

  /** The shipped agents have distinct ids, and the engineer agent is no longer shipped beside the setup agent. */
  ghost predicate ShippedAgents(defaults: seq<Record>) {
    DistinctIds(defaults) && !(ENGINEER in Ids(defaults) && SETUP in Ids(defaults))
  }

  lemma LegacyOnlyForSetup(agent: Record, current: Option<Record>, legacy: Option<Record>)
    requires IdOf(agent) == SETUP ==> legacy.None?
    ensures NormalizeAgent(agent, current, legacy) == NormalizeAgent(agent, current, None)
  {
  }

  /** Among records with the ids of the shipped agents, no setup agent sees an engineer agent. */
  lemma NoLegacyForSetup(seen: seq<Record>, defaults: seq<Record>, i: nat, current: Option<Record>)
    requires ShippedAgents(defaults) && i < |defaults| && |seen| == |defaults|
    requires forall j: nat | j < |seen| :: IdOf(seen[j]) == IdOf(defaults[j])
    ensures NormalizeAgent(defaults[i], current, FindLast(seen, ENGINEER)) == NormalizeAgent(defaults[i], current, None)
  {
    hide NormalizeAgent, FindLast;
    if IdOf(defaults[i]) == SETUP {
      assert SETUP in Ids(defaults);
      forall j: nat | j < |seen| ensures IdOf(seen[j]) != ENGINEER {
        assert IdOf(defaults[j]) in Ids(defaults);
      }
      LastMissing(seen, ENGINEER);
    }
    LegacyOnlyForSetup(defaults[i], current, FindLast(seen, ENGINEER));
  }

  lemma AgentIds(saved: seq<Record>, defaults: seq<Record>, again: bool, i: nat)
    requires i < |defaults|
    ensures IdOf(RereadAll(NormalizeAgents(saved, defaults), again)[i]) == IdOf(defaults[i])
    ensures IdOf(defaults[i]) in Ids(defaults)
  {
    AgentKeepsId(defaults[i], FindLast(saved, IdOf(defaults[i])), FindLast(saved, ENGINEER));
    RereadAlike(NormalizeAgents(saved, defaults)[i], again);
    hide NormalizeAgent, Reread;
  }

  /** The agents settle after one normalisation: the engineer agent is folded into the setup agent once. */
  lemma AgentsStable(saved: seq<Record>, defaults: seq<Record>, again: bool)
    requires ShippedAgents(defaults)
    requires again ==> AllParsed(saved)
    ensures var first := NormalizeAgents(saved, defaults);
            AllAlike(NormalizeAgents(RereadAll(first, again), defaults), first)
  {
    var first := NormalizeAgents(saved, defaults);
    var seen := RereadAll(first, again);
    var legacy := FindLast(saved, ENGINEER);
    FoundLast(saved, ENGINEER);
    forall i: nat | i < |seen|
      ensures IdOf(seen[i]) == IdOf(defaults[i])
    {
      AgentIds(saved, defaults, again, i);
      hide NormalizeAgents, RereadAll;
    }
    forall i: nat | i < |seen|
      ensures Alike(NormalizeAgents(seen, defaults)[i], first[i])
    {
      LastIs(seen, i);
      NoLegacyForSetup(seen, defaults, i, Some(seen[i]));
      FoundLast(saved, IdOf(defaults[i]));
      AgentSettles(defaults[i], FindLast(saved, IdOf(defaults[i])), legacy, again);
      hide NormalizeAgent, Alike, Reread, FindLast;
    }
  }

  lemma SetupOnShipped(agent: Record, seen: Record)
    requires IdOf(agent) == SETUP
    requires Field(seen, ProviderProfileId) == Field(agent, ProviderProfileId)
    requires Field(seen, FallbackProviderProfileId) == Field(agent, FallbackProviderProfileId)
    ensures var imposed := ImposedOnSetup(agent, seen, map[]); forall k <- imposed :: imposed[k] == Field(agent, k)
  {
    assert TakenOver(ProviderProfileId, agent, seen, map[]) == Field(agent, ProviderProfileId);
    assert TakenOver(FallbackProviderProfileId, agent, seen, map[]) == Field(agent, FallbackProviderProfileId);
    hide TakenOver;
  }

  /** What is imposed on an agent when no engineer agent was saved. */
  function AgentImposed(agent: Record, current: Record): Record {
    if IdOf(agent) == SETUP then ImposedOnSetup(agent, current, map[]) else ImposedOnAgent(agent)
  }

  lemma ImposedOnShippedAgent(agent: Record, again: bool)
    ensures var imposed := AgentImposed(agent, Reread(agent, again));
            forall k <- imposed :: imposed[k] == Field(agent, k)
  {
    var seen := Reread(agent, again);
    RereadAlike(agent, again);
    assert Field(seen, ProviderProfileId) == Field(agent, ProviderProfileId);
    assert Field(seen, FallbackProviderProfileId) == Field(agent, FallbackProviderProfileId);
    hide Reread, Alike, ImposedOnSetup;
    if IdOf(agent) == SETUP {
      SetupOnShipped(agent, seen);
    }
  }

  lemma ShippedAgentSettles(agent: Record, again: bool)
    ensures Alike(NormalizeAgent(agent, Some(Reread(agent, again)), None), agent)
  {
    var seen := Reread(agent, again);
    ImposedOnShippedAgent(agent, again);
    hide Reread, Field, Alike, ImposedOnSetup, ImposedOnAgent;
    assert NormalizeAgent(agent, Some(seen), None) == agent + seen + AgentImposed(agent, seen);
    hide *;
    assert agent + map[] + map[] == agent;
    MergeSettles(agent, map[], map[], AgentImposed(agent, seen), again);
  }

  /** Agents saved as they were shipped come back as they were shipped. */
  lemma ShippedAgentsStable(defaults: seq<Record>, again: bool)
    requires ShippedAgents(defaults)
    ensures AllAlike(NormalizeAgents(RereadAll(defaults, again), defaults), defaults)
  {
    var seen := RereadAll(defaults, again);
    forall i: nat | i < |seen|
      ensures IdOf(seen[i]) == IdOf(defaults[i])
    {
      RereadAlike(defaults[i], again);
      hide Reread;
    }
    forall i: nat | i < |seen|
      ensures Alike(NormalizeAgents(seen, defaults)[i], defaults[i])
    {
      LastIs(seen, i);
      NoLegacyForSetup(seen, defaults, i, Some(seen[i]));
      ShippedAgentSettles(defaults[i], again);
      hide NormalizeAgent, Alike, Reread, FindLast;
    }
  }

  /** The setup agent takes over what an engineer agent of an older release had saved, under its own name. */
  lemma SetupTakesOver(saved: seq<Record>, defaults: seq<Record>, i: nat, k: Key)
    requires i < |defaults| && IdOf(defaults[i]) == SETUP && FindLast(saved, ENGINEER).Some?
    ensures var r, engineer := NormalizeAgents(saved, defaults)[i], FindLast(saved, ENGINEER).value;
            && IdOf(r) == SETUP && Field(r, DisplayName) == Field(defaults[i], DisplayName)
            && (k in engineer && k !in {Id, DisplayName, ProviderProfileId, FallbackProviderProfileId,
                                        ArchiveReadScopes, ArchiveIntakeWriteScopes, ChannelIds}
                ==> Field(r, k) == engineer[k])
            && (FindLast(saved, SETUP).None? && Truthy(Field(engineer, ProviderProfileId))
                ==> Field(r, ProviderProfileId) == Field(engineer, ProviderProfileId))
  {
    hide FindLast;
    var engineer := FindLast(saved, ENGINEER);
    assert NormalizeAgents(saved, defaults)[i] == NormalizeAgent(defaults[i], FindLast(saved, SETUP), engineer);
    var imposed := ImposedOnSetup(defaults[i], OrEmpty(FindLast(saved, SETUP)), OrEmpty(engineer));
    assert ProviderProfileId in imposed && DisplayName in imposed && Id in imposed;
  }

  /** A property the code does not know. */
  const MARK := Named("mark")

  lemma MarkKept(agent: Record, current: Record, legacy: Option<Record>)
    ensures var r := NormalizeAgent(agent, Some(current), legacy);
            legacy.None? && MARK in current ==> Field(r, MARK) == current[MARK]
    ensures var r := NormalizeAgent(agent, Some(current), legacy);
            IdOf(agent) == SETUP && legacy.Some? ==>
              Field(r, MARK) == if MARK in legacy.value then legacy.value[MARK] else Field(agent, MARK)
  {
    hide TakenOver;
  }

  lemma MarkOfUnsaved(agent: Record, legacy: Option<Record>)
    requires IdOf(agent) != SETUP
    ensures var r := NormalizeAgent(agent, None, legacy);
            (MARK in r <==> MARK in agent) && Field(r, MARK) == Field(agent, MARK)
  {
  }

  /** Some value is neither of the two. */
  lemma FreshValue(a: Value, b: Value) returns (v: Value)
    ensures v != a && v != b && v.Structure?
  {
    v := if a != Structure(0) && b != Structure(0) then Structure(0)
         else if a != Structure(1) && b != Structure(1) then Structure(1) else Structure(2);
  }

  lemma AgentIdOf(saved: seq<Record>, defaults: seq<Record>, i: nat)
    requires i < |defaults|
    ensures IdOf(NormalizeAgents(saved, defaults)[i]) == IdOf(defaults[i])
  {
    AgentKeepsId(defaults[i], FindLast(saved, IdOf(defaults[i])), FindLast(saved, ENGINEER));
    hide NormalizeAgent, FindLast;
  }

  lemma FirstPass(saved: seq<Record>, defaults: seq<Record>, e: nat, i: nat, mark: Value)
    requires saved == [map[Id := SETUP, MARK := mark]] && e < |defaults| && i < |defaults|
    requires IdOf(defaults[e]) == ENGINEER && IdOf(defaults[i]) == SETUP
    ensures var first := NormalizeAgents(saved, defaults);
            && Field(first[i], MARK) == mark
            && (MARK in first[e] <==> MARK in defaults[e]) && Field(first[e], MARK) == Field(defaults[e], MARK)
  {
    assert ENGINEER != SETUP by { assert ENGINEER.text[0] != SETUP.text[0]; }
    LastMissing(saved, ENGINEER);
    LastIs(saved, 0);
    hide NormalizeAgent, FindLast;
    MarkKept(defaults[i], saved[0], None);
    MarkOfUnsaved(defaults[e], None);
  }

  lemma SecondPass(seen: seq<Record>, defaults: seq<Record>, e: nat, i: nat)
    requires DistinctIds(defaults) && |seen| == |defaults| && e < |defaults| && i < |defaults|
    requires forall j: nat | j < |seen| :: IdOf(seen[j]) == IdOf(defaults[j])
    requires IdOf(defaults[e]) == ENGINEER && IdOf(defaults[i]) == SETUP
    ensures Field(NormalizeAgents(seen, defaults)[i], MARK) ==
            if MARK in seen[e] then seen[e][MARK] else Field(defaults[i], MARK)
  {
    hide NormalizeAgent, FindLast;
    LastIs(seen, e);
    LastIs(seen, i);
    MarkKept(defaults[i], seen[i], Some(seen[e]));
  }

  /** With an engineer agent shipped beside the setup agent, some saved agents change at a second normalisation:
      the setup agent gives up what was saved of it for what was shipped of the engineer. */
  lemma EngineerWouldNotSettle(defaults: seq<Record>, e: nat, i: nat) returns (saved: seq<Record>)
    requires DistinctIds(defaults) && e < |defaults| && i < |defaults|
    requires IdOf(defaults[e]) == ENGINEER && IdOf(defaults[i]) == SETUP
    ensures AllParsed(saved)
    ensures var first := NormalizeAgents(saved, defaults); !AllAlike(NormalizeAgents(first, defaults), first)
  {
    var mark := FreshValue(Field(defaults[e], MARK), Field(defaults[i], MARK));
    saved := [map[Id := SETUP, MARK := mark]];
    var first := NormalizeAgents(saved, defaults);
    forall j: nat | j < |first| ensures IdOf(first[j]) == IdOf(defaults[j]) {
      AgentIdOf(saved, defaults, j);
      hide NormalizeAgent, FindLast, NormalizeAgents;
    }
    FirstPass(saved, defaults, e, i, mark);
    SecondPass(first, defaults, e, i);
    hide NormalizeAgents;
    assert !Alike(NormalizeAgents(first, defaults)[i], first[i]);
  }

  /** Agents settle after one normalisation, whatever was saved, exactly when the engineer agent is not
      shipped beside the setup agent. */
  lemma AgentsSettleExactly(defaults: seq<Record>)
    requires DistinctIds(defaults)
    ensures (forall saved: seq<Record> ::
               AllAlike(NormalizeAgents(NormalizeAgents(saved, defaults), defaults), NormalizeAgents(saved, defaults)))
            <==> !(ENGINEER in Ids(defaults) && SETUP in Ids(defaults))
  {
    if ENGINEER in Ids(defaults) && SETUP in Ids(defaults) {
      var e: nat :| e < |defaults| && IdOf(defaults[e]) == ENGINEER;
      var i: nat :| i < |defaults| && IdOf(defaults[i]) == SETUP;
      hide NormalizeAgents, AllAlike;
      var saved := EngineerWouldNotSettle(defaults, e, i);
    } else {
      forall saved: seq<Record>
        ensures AllAlike(NormalizeAgents(NormalizeAgents(saved, defaults), defaults), NormalizeAgents(saved, defaults))
      {
        AgentsStable(saved, defaults, false);
        var first := NormalizeAgents(saved, defaults);
        hide NormalizeAgents, AllAlike;
        assert RereadAll(first, false) == first;
      }
    }
  }

  // ----- workload strategies -----

  const AUGMENTOR_PRIMARY := Str("strategy-augmentor-primary")
  const ARCHIVE_INGEST := Str("strategy-archive-ingest")
  const GPT_54 := "gpt-5.4"

  predicate LegacyStrategy(strategy: Record) {
    var route := Field(strategy, PrimaryRoute);
    && route.Route?
    && ((IdOf(strategy) == AUGMENTOR_PRIMARY && LegacyMinimax(route.model))
        || (IdOf(strategy) == ARCHIVE_INGEST && route.model == GPT_54))
  }

  function MigrateStrategy(strategy: Record, defaults: seq<Record>): Record {
    var shipped := FindLast(defaults, IdOf(strategy));
    if shipped.Some? && LegacyStrategy(strategy)
    then strategy + map[PrimaryRoute := Field(shipped.value, PrimaryRoute)]
    else strategy
  }

  /** The workload strategies of `normalizeModelStrategy`. */
  function NormalizeStrategies(saved: seq<Record>, defaults: seq<Record>): seq<Record> {
    var source := if saved != [] then saved else defaults;
    seq(|source|, i requires 0 <= i < |source| => MigrateStrategy(source[i], defaults))
  }

  /** A saved strategy that is shipped too gives up a retired model for the shipped route; nothing else changes. */
  lemma StrategyOutcome(strategy: Record, defaults: seq<Record>, k: Key)
    ensures var shipped, route := FindLast(defaults, IdOf(strategy)), Field(strategy, PrimaryRoute);
            var retired := if IdOf(strategy) == Str("strategy-augmentor-primary") then
                             {"MiniMax-M2.7", "MiniMax-M2.7-highspeed"}
                           else if IdOf(strategy) == Str("strategy-archive-ingest") then {"gpt-5.4"} else {};
            Field(MigrateStrategy(strategy, defaults), k) ==
            Field(if k == PrimaryRoute && shipped != None && route.Route? && route.model in retired then shipped.value
                  else strategy, k)
  {
    hide FindLast;
  }

  lemma StrategySettles(strategy: Record, defaults: seq<Record>, again: bool)
    ensures var first := MigrateStrategy(strategy, defaults);
            Alike(MigrateStrategy(Reread(first, again), defaults), first)
  {
    var first := MigrateStrategy(strategy, defaults);
    var seen := Reread(first, again);
    RereadAlike(first, again);
    assert IdOf(seen) == IdOf(first) == IdOf(strategy);
    assert Field(seen, PrimaryRoute) == Field(first, PrimaryRoute);
    hide FindLast, Reread;
  }

  lemma StrategiesStable(saved: seq<Record>, defaults: seq<Record>, again: bool)
    ensures var first := NormalizeStrategies(saved, defaults);
            AllAlike(NormalizeStrategies(RereadAll(first, again), defaults), first)
  {
    var source := if saved != [] then saved else defaults;
    forall i: nat | i < |source|
      ensures var first := MigrateStrategy(source[i], defaults);
              Alike(MigrateStrategy(Reread(first, again), defaults), first)
    {
      StrategySettles(source[i], defaults, again);
    }
    hide MigrateStrategy, Reread, Alike;
  }

  /** No strategy keeps a retired model, unless it is shipped with one; every other saved strategy is kept. */
  lemma LegacyStrategiesGone(saved: seq<Record>, defaults: seq<Record>, i: nat)
    requires i < |saved|
    requires forall d <- defaults :: Field(d, PrimaryRoute).Route? && !LegacyStrategy(d)
    ensures i < |NormalizeStrategies(saved, defaults)|
    ensures var r, shipped := NormalizeStrategies(saved, defaults)[i], FindLast(defaults, IdOf(saved[i]));
            && (shipped.Some? ==> !LegacyStrategy(r))
            && (r == saved[i] || (shipped.Some? && LegacyStrategy(saved[i])
                                  && r == saved[i] + map[PrimaryRoute := Field(shipped.value, PrimaryRoute)]))
  {
    FoundLast(defaults, IdOf(saved[i]));
    hide FindLast, LegacyMinimax;
    var r := MigrateStrategy(saved[i], defaults);
    assert NormalizeStrategies(saved, defaults)[i] == r;
    assert IdOf(r) == IdOf(saved[i]);
    var shipped := FindLast(defaults, IdOf(saved[i]));
    if shipped.Some? && LegacyStrategy(saved[i]) {
      assert !LegacyStrategy(shipped.value);
      assert Field(r, PrimaryRoute) == Field(shipped.value, PrimaryRoute);
    }
  }

  /** Strategies saved as they were shipped come back as they were shipped. */
  lemma ShippedStrategiesStable(defaults: seq<Record>, again: bool)
    requires DistinctIds(defaults)
    ensures AllAlike(NormalizeStrategies(RereadAll(defaults, again), defaults), defaults)
  {
    var seen := RereadAll(defaults, again);
    forall i: nat | i < |seen|
      ensures Alike(MigrateStrategy(seen[i], defaults), defaults[i])
    {
      RereadAlike(defaults[i], again);
      assert IdOf(seen[i]) == IdOf(defaults[i]);
      LastIs(defaults, i);
      hide FindLast, Reread, LegacyStrategy;
    }
    hide MigrateStrategy, Reread, Alike;
  }

  // ----- channels -----

  function AddonOf(metadata: Value): Option<string> {
    if metadata.ChannelMetadata? then metadata.addonId else None
  }

  function OthersOf(metadata: Value): map<string, string> {
    if metadata.ChannelMetadata? then metadata.others else map[]
  }

  function MergedMetadata(channel: Record, current: Record): Value {
    var shipped, mine := Field(channel, Metadata), Field(current, Metadata);
    ChannelMetadata(Coalesce(AddonOf(mine), AddonOf(shipped)), OthersOf(shipped) + OthersOf(mine))
  }

  /** The add-on a channel belongs to, if any. */
  function ChannelAddon(channel: Record, current: Record): Option<string> {
    var addon := Coalesce(AddonOf(Field(channel, Metadata)), AddonOf(Field(current, Metadata)));
    if addon == Some("") then None else addon
  }

  function ChannelEnabled(live: set<string>, channel: Record, current: Record): Value {
    var addon := ChannelAddon(channel, current);
    if addon.Some? then Flag(addon.value in live) else Nullish(Field(current, Enabled), Field(channel, Enabled))
  }

  function ImposedOnChannel(live: set<string>, channel: Record, current: Record): Record {
    map[
      OwningAgentId := Field(channel, OwningAgentId),
      WorkspaceId := Field(channel, WorkspaceId),
      ChannelLabel := Field(channel, ChannelLabel),
      Enabled := ChannelEnabled(live, channel, current),
      Metadata := MergedMetadata(channel, current)]
  }

  function NormalizeChannel(live: set<string>, channel: Record, current: Record): Record {
    channel + current + ImposedOnChannel(live, channel, current)
  }

  /** A shipped channel merged with a saved one, property by property: its place and label are shipped, its flag is
      the add-on's, and its metadata are both, the saved ones winning. */
  lemma ChannelOutcome(live: set<string>, channel: Record, current: Record, k: Key)
    ensures var value := Field(NormalizeChannel(live, channel, current), k);
            match k
            case OwningAgentId => value == Field(channel, k)
            case WorkspaceId => value == Field(channel, k)
            case ChannelLabel => value == Field(channel, k)
            case Enabled =>
              var addon := if AddonOf(Field(channel, Metadata)) != None then AddonOf(Field(channel, Metadata))
                           else AddonOf(Field(current, Metadata));
              value == (if addon !in {None, Some("")} then Flag(addon.value in live)
                        else Field(if Field(current, k) !in {Undefined, Null} then current else channel, k))
            case Metadata =>
              var shipped, mine := Field(channel, k), Field(current, k);
              && value.ChannelMetadata?
              && value.addonId == (if AddonOf(mine) != None then AddonOf(mine) else AddonOf(shipped))
              && (forall name <- OthersOf(mine) :: name in value.others && value.others[name] == OthersOf(mine)[name])
              && (forall name <- OthersOf(shipped) | name !in OthersOf(mine) ::
                    name in value.others && value.others[name] == OthersOf(shipped)[name])
              && forall name <- value.others :: name in OthersOf(mine) || name in OthersOf(shipped)
            case _ => value == Merged(channel, current, k)
  {
    var imposed := ImposedOnChannel(live, channel, current);
    assert NormalizeChannel(live, channel, current) == channel + current + imposed;
    SpreadOver(channel, current, imposed, k);
    ChannelField(live, channel, current, k);
    hide NormalizeChannel, Merged, ImposedOnChannel;
  }

  lemma ChannelField(live: set<string>, channel: Record, current: Record, k: Key)
    ensures k in ImposedOnChannel(live, channel, current) <==>
            k in {OwningAgentId, WorkspaceId, ChannelLabel, Enabled, Metadata}
    ensures k in {OwningAgentId, WorkspaceId, ChannelLabel} ==>
              ImposedOnChannel(live, channel, current)[k] == Field(channel, k)
    ensures k == Enabled ==> ImposedOnChannel(live, channel, current)[k] == ChannelEnabled(live, channel, current)
    ensures k == Metadata ==> ImposedOnChannel(live, channel, current)[k] == MergedMetadata(channel, current)
  {
    hide ChannelEnabled, MergedMetadata;
  }

  /** `normalizeChannels`, where `live` holds the ids of the enabled add-ons. */
  function NormalizeChannels(live: set<string>, saved: seq<Record>, defaults: seq<Record>): seq<Record> {
    seq(|defaults|, i requires 0 <= i < |defaults| =>
      NormalizeChannel(live, defaults[i], OrEmpty(FindFirst(saved, IdOf(defaults[i])))))
  }

  lemma MergeForgets(d: Record, current: Record, imposed: Record, again: Record, saved: bool)
    requires saved ==> Parsed(current)
    requires imposed.Keys == again.Keys
    ensures Alike(d + Reread(d + current + imposed, saved) + again, d + current + again)
  {
    var first := d + current + imposed;
    var next := d + Reread(first, saved) + again;
    forall k
      ensures Field(next, k) == Field(d + current + again, k)
    {
      if k !in again && k in current {
        assert first[k] == current[k];
      }
    }
  }

  lemma ChannelImposedAgain(live: set<string>, was: set<string>, channel: Record, current: Record, seen: Record)
    requires Field(seen, Metadata) == MergedMetadata(channel, current)
    requires Field(seen, Enabled) == ChannelEnabled(was, channel, current)
    ensures ImposedOnChannel(live, channel, seen) == ImposedOnChannel(live, channel, current)
  {
    assert MergedMetadata(channel, seen) == MergedMetadata(channel, current);
    assert ChannelAddon(channel, seen) == ChannelAddon(channel, current);
    hide MergedMetadata, ChannelAddon;
    assert ChannelEnabled(live, channel, seen) == ChannelEnabled(live, channel, current);
    hide ChannelEnabled;
  }

  lemma ChannelForgets(live: set<string>, was: set<string>, channel: Record, current: Record, again: bool)
    requires again ==> Parsed(current)
    ensures Alike(NormalizeChannel(live, channel, Reread(NormalizeChannel(was, channel, current), again)),
                  NormalizeChannel(live, channel, current))
  {
    var imposed := ImposedOnChannel(was, channel, current);
    var first := channel + current + imposed;
    var seen := Reread(first, again);
    LastSpreadWins(channel + current, imposed);
    RereadAlike(first, again);
    assert Field(seen, Metadata) == imposed[Metadata];
    assert Field(seen, Enabled) == imposed[Enabled];
    ChannelImposedAgain(live, was, channel, current, seen);
    assert imposed.Keys == ImposedOnChannel(live, channel, current).Keys;
    hide ImposedOnChannel, Reread, Alike, Field;
    MergeForgets(channel, current, imposed, ImposedOnChannel(live, channel, current), again);
  }

  lemma ChannelKeepsId(live: set<string>, channel: Record, current: Option<Record>, again: bool)
    requires current.Some? ==> IdOf(current.value) == IdOf(channel)
    ensures IdOf(Reread(NormalizeChannel(live, channel, OrEmpty(current)), again)) == IdOf(channel)
  {
    RereadAlike(NormalizeChannel(live, channel, OrEmpty(current)), again);
    hide Reread, ChannelEnabled, MergedMetadata;
  }

  /** A later normalisation forgets which add-ons were enabled at an earlier one: normalising twice is
      normalising once, with the add-ons enabled last. */
  lemma ChannelsForget(live: set<string>, was: set<string>, saved: seq<Record>, defaults: seq<Record>, again: bool)
    requires DistinctIds(defaults)
    requires again ==> AllParsed(saved)
    ensures AllAlike(NormalizeChannels(live, RereadAll(NormalizeChannels(was, saved, defaults), again), defaults),
                     NormalizeChannels(live, saved, defaults))
  {
    var first := NormalizeChannels(was, saved, defaults);
    var seen := RereadAll(first, again);
    forall i: nat | i < |seen|
      ensures IdOf(seen[i]) == IdOf(defaults[i])
    {
      FoundFirst(saved, IdOf(defaults[i]));
      ChannelKeepsId(was, defaults[i], FindFirst(saved, IdOf(defaults[i])), again);
      hide NormalizeChannel, Reread, FindFirst;
    }
    forall i: nat | i < |seen|
      ensures Alike(NormalizeChannels(live, seen, defaults)[i], NormalizeChannels(live, saved, defaults)[i])
    {
      FirstIs(seen, i);
      FoundFirst(saved, IdOf(defaults[i]));
      ChannelForgets(live, was, defaults[i], OrEmpty(FindFirst(saved, IdOf(defaults[i]))), again);
      hide NormalizeChannel, Reread, FindFirst, Alike;
    }
  }

  /** The flag of a shipped add-on channel is the host's enablement, whatever was saved. */
  lemma AddonChannelFlag(live: set<string>, saved: seq<Record>, defaults: seq<Record>, i: nat, addon: string)
    requires i < |defaults| && addon != "" && AddonOf(Field(defaults[i], Metadata)) == Some(addon)
    ensures Field(NormalizeChannels(live, saved, defaults)[i], Enabled) == Flag(addon in live)
  {
    var current := OrEmpty(FindFirst(saved, IdOf(defaults[i])));
    assert Enabled in ImposedOnChannel(live, defaults[i], current);
    hide FindFirst, MergedMetadata;
  }

  /** A channel of no add-on keeps its saved flag, or the shipped one when none was saved. */
  lemma PlainChannelFlag(live: set<string>, saved: seq<Record>, defaults: seq<Record>, i: nat)
    requires i < |defaults|
    requires ChannelAddon(defaults[i], OrEmpty(FindFirst(saved, IdOf(defaults[i])))).None?
    ensures Field(NormalizeChannels(live, saved, defaults)[i], Enabled)
            == Nullish(Field(OrEmpty(FindFirst(saved, IdOf(defaults[i]))), Enabled), Field(defaults[i], Enabled))
    ensures Field(NormalizeChannels(live, saved, defaults)[i], ChannelLabel) == Field(defaults[i], ChannelLabel)
  {
    var current := OrEmpty(FindFirst(saved, IdOf(defaults[i])));
    var imposed := ImposedOnChannel(live, defaults[i], current);
    assert Enabled in imposed && ChannelLabel in imposed;
    hide FindFirst, MergedMetadata, ChannelAddon;
  }
}
