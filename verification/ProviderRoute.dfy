/** The provider route resolver: a nested search over providers and runtime nodes with
    filters, a stable two-key sort and early return, shown to be a declarative minimum. */
module ProviderRoute {
  import opened Options

  datatype Health = Ready | Degraded | Deployable | Unavailable

  datatype Provider = Provider(
    id: string, providerType: string, authSource: string, authMethod: string, authTier: string,
    missing: bool, credentialMissing: bool, primaryModel: string, fallbackModel: Option<string>,
    allowedModels: seq<string>)

  datatype Node = Node(
    id: string, providerProfileId: string, kind: string, locality: string, endpoint: string,
    supportedModels: seq<string>, authTier: string, health: Health, deployableOnDemand: bool)

  datatype Adapter = Adapter(
    id: string, supportedProviderTypes: seq<string>, supportedRuntimeKinds: seq<string>,
    supportedAuthMethods: seq<string>)

  datatype FallbackPolicy = FallbackPolicy(
    id: string, orderedProviderProfileIds: seq<string>, allowExperimentalAuth: bool, allowResurrection: bool)

  datatype RecoveryAction = RecoveryAction(id: string, runtimeNodeId: string, prepared: bool)

  datatype State = State(
    providers: seq<Provider>, runtimeNodes: seq<Node>, executionAdapters: seq<Adapter>,
    fallbackPolicies: seq<FallbackPolicy>, recoveryActions: seq<RecoveryAction>, allowOptIn: bool)

  datatype Input = Input(
    primary: Option<string>, fallback: Option<string>,
    allowedProviderIds: Option<seq<string>>, preferredProviderIds: Option<seq<string>>,
    preferredNodeIds: Option<seq<string>>, preferredModels: Option<seq<string>>,
    allowedRuntimeKinds: Option<seq<string>>, allowedAdapterIds: Option<seq<string>>,
    preferredLocalities: Option<seq<string>>, allowedAuthTiers: Option<seq<string>>,
    allowExperimentalAuth: Option<bool>, allowResurrection: Option<bool>, fallbackPolicyId: Option<string>)

  datatype Reason = PrimaryHealthy | FallbackInPolicy | ResurrectionAvailable | NoViableRoute

  datatype Decision = Decision(
    providerId: Option<string>, nodeId: Option<string>, adapterId: Option<string>, model: Option<string>,
    authTier: string, usingFallback: bool, reason: Reason, fallbackPolicyId: Option<string>,
    recoveryActionId: Option<string>)

  const MAX_SAFE_INTEGER: nat := 9007199254740991

  // ----- policy and filters -----

  /** A list that restricts: absent or empty, it restricts nothing. */
  predicate Permits(list: Option<seq<string>>, value: string) {
    list.None? || list.value == [] || value in list.value
  }

  function FindPolicy(policies: seq<FallbackPolicy>, id: Option<string>): Option<FallbackPolicy> {
    if policies == [] then None
    else if Some(policies[0].id) == id then Some(policies[0])
    else FindPolicy(policies[1..], id)
  }

  function PolicyOf(state: State, input: Input): Option<FallbackPolicy> {
    var named := FindPolicy(state.fallbackPolicies, input.fallbackPolicyId);
    if named.Some? then named
    else if state.fallbackPolicies != [] then Some(state.fallbackPolicies[0])
    else None
  }

  function AuthTiers(state: State, input: Input): seq<string> {
    var policy := PolicyOf(state, input);
    var experimental :=
      if input.allowExperimentalAuth.Some? then input.allowExperimentalAuth.value
      else if policy.Some? then policy.value.allowExperimentalAuth
      else state.allowOptIn;
    if input.allowedAuthTiers.Some? then input.allowedAuthTiers.value
    else if experimental then ["supported", "experimental"] else ["supported"]
  }

  predicate ResurrectionAllowed(state: State, input: Input) {
    if input.allowResurrection.Some? then input.allowResurrection.value
    else PolicyOf(state, input).Some? && PolicyOf(state, input).value.allowResurrection
  }

  function AllSome(ids: seq<string>): seq<Option<string>> {
    seq(|ids|, i requires 0 <= i < |ids| => Some(ids[i]))
  }

  /** All provider ids the search may visit, in order, with repetitions and gaps. */
  function RawIds(state: State, input: Input): seq<Option<string>> {
    var policy := PolicyOf(state, input);
    AllSome(if input.preferredProviderIds.Some? then input.preferredProviderIds.value else [])
    + [input.primary, input.fallback]
    + AllSome(if policy.Some? then policy.value.orderedProviderProfileIds else [])
  }

  /** The first occurrences of the permitted ids. */
  function FirstPermitted(items: seq<Option<string>>, allowed: Option<seq<string>>): seq<string> {
    if items == [] then []
    else
      var before, last := items[..|items| - 1], items[|items| - 1];
      FirstPermitted(before, allowed) +
      if last.Some? && last !in before && Permits(allowed, last.value) then [last.value] else []
  }

  function OrderedIds(state: State, input: Input): seq<string> {
    FirstPermitted(RawIds(state, input), input.allowedProviderIds)
  }

  function FindProvider(providers: seq<Provider>, id: string): Option<Provider> {
    if providers == [] then None
    else if providers[0].id == id then Some(providers[0])
    else FindProvider(providers[1..], id)
  }

  function FindNode(nodes: seq<Node>, id: string): Option<Node> {
    if nodes == [] then None
    else if nodes[0].id == id && nodes[0].deployableOnDemand then Some(nodes[0])
    else FindNode(nodes[1..], id)
  }

  function FindPrepared(actions: seq<RecoveryAction>): Option<RecoveryAction> {
    if actions == [] then None
    else if actions[0].prepared then Some(actions[0])
    else FindPrepared(actions[1..])
  }

  /** The first adapter that supports the pair. */
  function AdapterFor(adapters: seq<Adapter>, provider: Provider, node: Node): Option<Adapter> {
    if adapters == [] then None
    else if provider.providerType in adapters[0].supportedProviderTypes
            && node.kind in adapters[0].supportedRuntimeKinds
            && provider.authMethod in adapters[0].supportedAuthMethods then Some(adapters[0])
    else AdapterFor(adapters[1..], provider, node)
  }

  predicate UsableProvider(provider: Provider, tiers: seq<string>) {
    !provider.missing && !provider.credentialMissing && provider.authTier in tiers
  }

  predicate CandidateNode(input: Input, tiers: seq<string>, provider: Provider, node: Node) {
    && node.providerProfileId == provider.id && node.authTier in tiers
    && Permits(input.allowedRuntimeKinds, node.kind)
    && (node.health.Ready? || node.health.Degraded? || (node.health.Deployable? && node.deployableOnDemand))
  }

  predicate AsksForModels(input: Input) {
    input.preferredModels.Some? && input.preferredModels.value != []
  }

  function ModelsToTry(input: Input, provider: Provider): seq<string> {
    if AsksForModels(input) then input.preferredModels.value
    else
      (if provider.primaryModel != "" then [provider.primaryModel] else []) +
      (if provider.fallbackModel.Some? && provider.fallbackModel.value != ""
        then [provider.fallbackModel.value] else [])
  }

  function FirstSupported(models: seq<string>, supported: seq<string>): Option<string> {
    if models == [] then None
    else if models[0] != "" && models[0] in supported then Some(models[0])
    else FirstSupported(models[1..], supported)
  }

  /** The model a pair would run, if any. */
  function ModelFor(input: Input, provider: Provider, node: Node): Option<string> {
    var matched := FirstSupported(ModelsToTry(input, provider), node.supportedModels);
    if AsksForModels(input) && matched.None? then None
    else
      var model :=
        if matched.Some? then matched.value
        else if node.supportedModels != [] then node.supportedModels[0]
        else provider.primaryModel;
      if model == "" then None else Some(model)
  }

  /** A node the loop over a provider's candidates would stop at. */
  predicate Admissible(state: State, input: Input, provider: Provider, node: Node) {
    var adapter := AdapterFor(state.executionAdapters, provider, node);
    && CandidateNode(input, AuthTiers(state, input), provider, node)
    && adapter.Some? && Permits(input.allowedAdapterIds, adapter.value.id)
    && ModelFor(input, provider, node).Some?
  }

  // ----- the order of a provider's nodes -----

  function IndexOf(list: seq<string>, value: string): nat {
    if list == [] then 0 else if list[0] == value then 0 else 1 + IndexOf(list[1..], value)
  }

  function Rank(preferred: Option<seq<string>>, value: string): nat {
    if preferred.None? || preferred.value == [] then 0
    else if value in preferred.value then IndexOf(preferred.value, value)
    else MAX_SAFE_INTEGER
  }

  /** Node a comes before node b: by runtime rank, then locality rank, then position. */
  predicate Before(state: State, input: Input, a: nat, b: nat) {
    a < |state.runtimeNodes| && b < |state.runtimeNodes| &&
    var x, y := state.runtimeNodes[a], state.runtimeNodes[b];
    var runtimeX, runtimeY := Rank(input.preferredNodeIds, x.id), Rank(input.preferredNodeIds, y.id);
    var localityX := Rank(input.preferredLocalities, x.locality);
    var localityY := Rank(input.preferredLocalities, y.locality);
    runtimeX < runtimeY ||
    (runtimeX == runtimeY && (localityX < localityY || (localityX == localityY && a < b)))
  }

  lemma BeforeTotal(state: State, input: Input, a: nat, b: nat)
    requires a < |state.runtimeNodes| && b < |state.runtimeNodes| && a != b
    ensures Before(state, input, a, b) <==> !Before(state, input, b, a)
  {
    hide Rank;
  }

  predicate AllNodes(state: State, positions: seq<nat>) {
    forall i | 0 <= i < |positions| :: positions[i] < |state.runtimeNodes|
  }

  predicate InOrder(state: State, input: Input, positions: seq<nat>) {
    forall i, j | 0 <= i < j < |positions| :: Before(state, input, positions[i], positions[j])
  }

  /** Insertion from the right, as a stable sort does for elements of equal key. */
  function Insert(state: State, input: Input, sorted: seq<nat>, p: nat): (r: seq<nat>)
    requires AllNodes(state, sorted) && p < |state.runtimeNodes|
    ensures AllNodes(state, r)
  {
    if sorted == [] || Before(state, input, sorted[|sorted| - 1], p) then sorted + [p]
    else Insert(state, input, sorted[..|sorted| - 1], p) + [sorted[|sorted| - 1]]
  }

  lemma {:induction false} InsertInOrder(state: State, input: Input, sorted: seq<nat>, p: nat)
    requires AllNodes(state, sorted) && p < |state.runtimeNodes| && p !in sorted && InOrder(state, input, sorted)
    ensures InOrder(state, input, Insert(state, input, sorted, p))
    ensures multiset(Insert(state, input, sorted, p)) == multiset(sorted) + multiset{p}
    decreases |sorted|
  {
    if sorted != [] && !Before(state, input, sorted[|sorted| - 1], p) {
      var rest, last := sorted[..|sorted| - 1], sorted[|sorted| - 1];
      assert sorted == rest + [last];
      InsertInOrder(state, input, rest, p);
      BeforeTotal(state, input, p, last);
      var r := Insert(state, input, rest, p);
      hide Before;
      hide Insert;
      AllBeforeLast(state, input, rest, p, r, last);
    } else if sorted != [] {
      LastBeforeAll(state, input, sorted, p);
    }
  }

  lemma AllBeforeLast(state: State, input: Input, rest: seq<nat>, p: nat, r: seq<nat>, last: nat)
    requires InOrder(state, input, rest + [last]) && InOrder(state, input, r) && Before(state, input, p, last)
    requires multiset(r) == multiset(rest) + multiset{p}
    ensures InOrder(state, input, r + [last])
  {
    hide Before;
    forall i | 0 <= i < |r| ensures Before(state, input, r[i], last) {
      assert r[i] in multiset(r);
      if r[i] != p {
        var j :| 0 <= j < |rest| && rest[j] == r[i];
        assert (rest + [last])[j] == r[i] && (rest + [last])[|rest|] == last;
      }
    }
  }

  lemma LastBeforeAll(state: State, input: Input, sorted: seq<nat>, p: nat)
    requires AllNodes(state, sorted) && p < |state.runtimeNodes| && InOrder(state, input, sorted)
    requires sorted != [] && Before(state, input, sorted[|sorted| - 1], p)
    ensures InOrder(state, input, sorted + [p])
  {
    var last := sorted[|sorted| - 1];
    forall i | 0 <= i < |sorted| ensures Before(state, input, sorted[i], p) {
      if i < |sorted| - 1 {
        assert Before(state, input, sorted[i], last);
        BeforeTransitive(state, input, sorted[i], last, p);
      }
    }
    hide Before;
  }

  lemma BeforeTransitive(state: State, input: Input, a: nat, b: nat, c: nat)
    requires a < |state.runtimeNodes| && b < |state.runtimeNodes| && c < |state.runtimeNodes|
    requires Before(state, input, a, b) && Before(state, input, b, c)
    ensures Before(state, input, a, c)
  {
    hide Rank;
  }

  /** The candidates among the first n nodes, sorted. */
  function SortedCandidates(state: State, input: Input, provider: Provider, n: nat): (r: seq<nat>)
    requires n <= |state.runtimeNodes|
    ensures AllNodes(state, r)
  {
    if n == 0 then []
    else
      var before := SortedCandidates(state, input, provider, n - 1);
      if CandidateNode(input, AuthTiers(state, input), provider, state.runtimeNodes[n - 1]) then
        Insert(state, input, before, n - 1)
      else before
  }

  lemma SortedStep(state: State, input: Input, provider: Provider, n: nat)
    requires n <= |state.runtimeNodes|
    ensures SortedCandidates(state, input, provider, n) ==
            if n == 0 then []
            else if CandidateNode(input, AuthTiers(state, input), provider, state.runtimeNodes[n - 1])
            then Insert(state, input, SortedCandidates(state, input, provider, n - 1), n - 1)
            else SortedCandidates(state, input, provider, n - 1)
  {
    hide Insert, CandidateNode, AuthTiers;
  }

  /** Sorting loses no candidate, adds none, repeats none, and orders them all. */
  lemma {:induction false} SortedCandidatesAre(state: State, input: Input, provider: Provider, n: nat)
    requires n <= |state.runtimeNodes|
    ensures var r := SortedCandidates(state, input, provider, n);
            InOrder(state, input, r) &&
            forall k: nat :: k in r <==>
              k < n && CandidateNode(input, AuthTiers(state, input), provider, state.runtimeNodes[k])
    decreases n
  {
    hide SortedCandidates, CandidateNode, AuthTiers, Insert, Before, AllNodes;
    SortedStep(state, input, provider, n);
    if n > 0 {
      hide InOrder;
      SortedCandidatesAre(state, input, provider, n - 1);
      if CandidateNode(input, AuthTiers(state, input), provider, state.runtimeNodes[n - 1]) {
        InsertAdds(state, input, SortedCandidates(state, input, provider, n - 1), n - 1);
      }
    }
  }

  lemma InsertAdds(state: State, input: Input, sorted: seq<nat>, p: nat)
    requires AllNodes(state, sorted) && p < |state.runtimeNodes| && p !in sorted && InOrder(state, input, sorted)
    ensures InOrder(state, input, Insert(state, input, sorted, p))
    ensures forall k: nat :: k in Insert(state, input, sorted, p) <==> k in sorted || k == p
  {
    InsertInOrder(state, input, sorted, p);
    var r := Insert(state, input, sorted, p);
    hide *;
    forall k: nat ensures k in r <==> k in sorted || k == p {
      assert k in r <==> k in multiset(r);
      assert k in sorted <==> k in multiset(sorted);
    }
  }

  // ----- the declarative answer -----

  /** The pair of the i-th provider id and the k-th node is admissible. */
  predicate AdmissibleAt(state: State, input: Input, i: nat, k: nat) {
    && i < |OrderedIds(state, input)| && k < |state.runtimeNodes|
    && var provider := FindProvider(state.providers, OrderedIds(state, input)[i]);
       provider.Some? && UsableProvider(provider.value, AuthTiers(state, input))
       && Admissible(state, input, provider.value, state.runtimeNodes[k])
  }

  ghost predicate Viable(state: State, input: Input) {
    exists i: nat, k: nat :: AdmissibleAt(state, input, i, k)
  }

  /** An admissible pair before all others, by position of the provider, then order of the nodes. */
  ghost predicate Least(state: State, input: Input, i: nat, k: nat) {
    && AdmissibleAt(state, input, i, k)
    && forall j: nat, m: nat | AdmissibleAt(state, input, j, m) ::
         i < j || (i == j && (k == m || Before(state, input, k, m)))
  }

  lemma LeastUnique(state: State, input: Input, i: nat, k: nat, j: nat, m: nat)
    requires Least(state, input, i, k) && Least(state, input, j, m)
    ensures i == j && k == m
  {
    hide AdmissibleAt;
    assert AdmissibleAt(state, input, i, k) && AdmissibleAt(state, input, j, m);
    hide Rank;
  }

  lemma AdmissibleInRange(state: State, input: Input, i: nat, k: nat)
    requires AdmissibleAt(state, input, i, k)
    ensures i < |OrderedIds(state, input)| && k < |state.runtimeNodes|
  {
  }

  function PairDecision(state: State, input: Input, provider: Provider, node: Node, usingFallback: bool): Decision
    requires AdapterFor(state.executionAdapters, provider, node).Some?
  {
    Decision(
      Some(provider.id), Some(node.id),
      Some(AdapterFor(state.executionAdapters, provider, node).value.id),
      ModelFor(input, provider, node),
      provider.authTier,
      usingFallback,
      if Some(provider.id) == input.primary && node.health.Ready? then PrimaryHealthy else FallbackInPolicy,
      PolicyIdOf(state, input),
      None)
  }

  /** The decision for a pair.  It counts as fallback unless it is the primary at the head of the list. */
  function DecisionAt(state: State, input: Input, i: nat, k: nat): Decision
    requires AdmissibleAt(state, input, i, k)
  {
    var id := OrderedIds(state, input)[i];
    PairDecision(state, input, FindProvider(state.providers, id).value, state.runtimeNodes[k],
                 !(i == 0 && Some(id) == input.primary))
  }

  function PolicyIdOf(state: State, input: Input): Option<string> {
    if PolicyOf(state, input).Some? then Some(PolicyOf(state, input).value.id) else None
  }

  function NoRoute(state: State, input: Input): Decision {
    Decision(None, None, None, None, "unavailable", true, NoViableRoute, PolicyIdOf(state, input), None)
  }

  /** The answer when no pair is admissible: the prepared recovery node, or none. */
  function LastResort(state: State, input: Input): Decision {
    var action := FindPrepared(state.recoveryActions);
    if !ResurrectionAllowed(state, input) || action.None? then NoRoute(state, input)
    else
      match FindNode(state.runtimeNodes, action.value.runtimeNodeId)
      case None => NoRoute(state, input)
      case Some(node) =>
        var provider := FindProvider(state.providers, node.providerProfileId);
        var adapter :=
          if provider.Some? then AdapterFor(state.executionAdapters, provider.value, node) else None;
        Decision(
          if provider.Some? then Some(provider.value.id) else None,
          Some(node.id),
          if adapter.Some? then Some(adapter.value.id) else None,
          if node.supportedModels != [] then Some(node.supportedModels[0])
          else if provider.Some? then Some(provider.value.primaryModel) else None,
          node.authTier, true, ResurrectionAvailable, PolicyIdOf(state, input), Some(action.value.id))
  }

  lemma {:induction false} FindProviderHasId(providers: seq<Provider>, id: string)
    ensures FindProvider(providers, id).Some? ==> FindProvider(providers, id).value.id == id
    decreases |providers|
  {
    if providers != [] && providers[0].id != id {
      FindProviderHasId(providers[1..], id);
    }
  }

  predicate Distinct(ids: seq<string>) {
    forall i: nat, j: nat | i < j < |ids| :: ids[i] != ids[j]
  }

  lemma DistinctAppend(ids: seq<string>, id: string)
    requires Distinct(ids) && id !in ids
    ensures Distinct(ids + [id])
  {
    var r := ids + [id];
    forall i: nat, j: nat | i < j < |r| ensures r[i] != r[j] {
      assert r[i] == ids[i] && ids[i] in ids;
      if j < |ids| {
        assert r[j] == ids[j];
      }
    }
  }

  lemma {:induction false} FirstPermittedDistinct(items: seq<Option<string>>, allowed: Option<seq<string>>)
    ensures Distinct(FirstPermitted(items, allowed))
    ensures forall id: string :: id in FirstPermitted(items, allowed) <==> Some(id) in items && Permits(allowed, id)
    decreases |items|
  {
    if items != [] {
      var before, last := items[..|items| - 1], items[|items| - 1];
      FirstPermittedDistinct(before, allowed);
      assert items == before + [last];
      var ids := FirstPermitted(before, allowed);
      hide Permits;
      if last.Some? && last !in before {
        assert last.value !in ids;
        DistinctAppend(ids, last.value);
      }
      assert FirstPermitted(items, allowed) == ids || FirstPermitted(items, allowed) == ids + [last.value];
      forall id: string
        ensures id in FirstPermitted(items, allowed) <==> Some(id) in items && Permits(allowed, id)
      {
        assert Some(id) in items <==> Some(id) in before || Some(id) == last;
        assert id in FirstPermitted(items, allowed) <==>
               id in ids || (last == Some(id) && last !in before && Permits(allowed, id));
      }
    }
  }

  // ----- the resolver as the loop it is -----

  method ResolveProviderRoute(state: State, input: Input) returns (d: Decision)
    ensures d.reason.PrimaryHealthy? || d.reason.FallbackInPolicy? <==> Viable(state, input)
    ensures Viable(state, input) ==>
              exists i: nat, k: nat :: Least(state, input, i, k) && d == DecisionAt(state, input, i, k)
    ensures !Viable(state, input) ==> d == LastResort(state, input)
  {
    hide *;
    var tiers := AuthTiers(state, input);
    var ids := OrderedIds(state, input);
    var fallbackUsed := false;
    for i := 0 to |ids|
      invariant forall j: nat, m: nat | j < i :: !AdmissibleAt(state, input, j, m)
      invariant fallbackUsed ==> i > 0
      invariant !fallbackUsed ==> forall j: nat | j < i :: Some(ids[j]) == input.primary
    {
      var found := FindProvider(state.providers, ids[i]);
      if found.None? || !UsableProvider(found.value, tiers) {
        NoneAdmissibleAt(state, input, i);
        fallbackUsed := fallbackUsed || Some(ids[i]) != input.primary;
        continue;
      }
      var provider := found.value;
      var k := FirstAdmissible(state, input, provider);
      if k.Some? {
        LeastFound(state, input, i, provider, k.value);
        DecisionFound(state, input, i, provider, k.value, fallbackUsed);
        d := PairDecision(state, input, provider, state.runtimeNodes[k.value],
                          fallbackUsed || Some(provider.id) != input.primary);
        return;
      }
      NoneAdmissibleAt(state, input, i);
      fallbackUsed := true;
    }
    NoneViable(state, input);
    LastResortReason(state, input);
    d := LastResort(state, input);
  }

  lemma NoneViable(state: State, input: Input)
    requires forall j: nat, m: nat | j < |OrderedIds(state, input)| :: !AdmissibleAt(state, input, j, m)
    ensures !Viable(state, input)
  {
    forall j: nat, m: nat ensures !AdmissibleAt(state, input, j, m) {
      if AdmissibleAt(state, input, j, m) {
        AdmissibleInRange(state, input, j, m);
        assert false;
      }
    }
    hide AdmissibleAt;
  }

  lemma LastResortReason(state: State, input: Input)
    ensures var r := LastResort(state, input).reason; r.ResurrectionAvailable? || r.NoViableRoute?
  {
  }

  /** The flag the loop carries comes to this: fallback unless the primary heads the list. */
  lemma DecisionFound(state: State, input: Input, i: nat, provider: Provider, k: nat, fallbackUsed: bool)
    requires AdmissibleAt(state, input, i, k)
    requires i < |OrderedIds(state, input)| && k < |state.runtimeNodes|
    requires FindProvider(state.providers, OrderedIds(state, input)[i]) == Some(provider)
    requires AdapterFor(state.executionAdapters, provider, state.runtimeNodes[k]).Some?
    requires fallbackUsed ==> i > 0
    requires !fallbackUsed ==> forall j: nat | j < i :: Some(OrderedIds(state, input)[j]) == input.primary
    ensures PairDecision(state, input, provider, state.runtimeNodes[k],
                         fallbackUsed || Some(provider.id) != input.primary)
            == DecisionAt(state, input, i, k)
    ensures var r := DecisionAt(state, input, i, k).reason; r.PrimaryHealthy? || r.FallbackInPolicy?
  {
    var ids := OrderedIds(state, input);
    FirstPermittedDistinct(RawIds(state, input), input.allowedProviderIds);
    assert Distinct(ids);
    FindProviderHasId(state.providers, ids[i]);
    hide AdmissibleAt;
    hide OrderedIds;
    hide FindProvider;
    hide AdapterFor;
    hide ModelFor;
    hide PolicyIdOf;
    if i > 0 {
      var first: nat := 0;
      assert ids[first] != ids[i];
    }
  }

  lemma NoneAdmissibleAt(state: State, input: Input, i: nat)
    requires i < |OrderedIds(state, input)|
    requires var found := FindProvider(state.providers, OrderedIds(state, input)[i]);
             found.None? || !UsableProvider(found.value, AuthTiers(state, input)) ||
             forall m: nat | m < |state.runtimeNodes| :: !Admissible(state, input, found.value, state.runtimeNodes[m])
    ensures forall m: nat :: !AdmissibleAt(state, input, i, m)
  {
    hide Admissible;
    hide FindProvider;
    hide UsableProvider;
    hide OrderedIds;
  }

  lemma FirstOfCandidates(state: State, input: Input, provider: Provider, candidates: seq<nat>, j: nat)
    requires AllNodes(state, candidates) && InOrder(state, input, candidates) && j < |candidates|
    requires forall k: nat :: k in candidates <==>
               && k < |state.runtimeNodes|
               && CandidateNode(input, AuthTiers(state, input), provider, state.runtimeNodes[k])
    requires forall q: nat | q < j :: !Admissible(state, input, provider, state.runtimeNodes[candidates[q]])
    ensures forall m: nat | m < |state.runtimeNodes| && Admissible(state, input, provider, state.runtimeNodes[m]) ::
              m == candidates[j] || Before(state, input, candidates[j], m)
  {
    forall m: nat | m < |state.runtimeNodes| && Admissible(state, input, provider, state.runtimeNodes[m])
      ensures m == candidates[j] || Before(state, input, candidates[j], m)
    {
      assert m in candidates;
      hide Admissible, CandidateNode, Before, AuthTiers;
      var q: nat :| q < |candidates| && candidates[q] == m;
    }
  }

  lemma NoCandidate(state: State, input: Input, provider: Provider, candidates: seq<nat>)
    requires AllNodes(state, candidates)
    requires forall k: nat :: k in candidates <==>
               && k < |state.runtimeNodes|
               && CandidateNode(input, AuthTiers(state, input), provider, state.runtimeNodes[k])
    requires forall q: nat | q < |candidates| :: !Admissible(state, input, provider, state.runtimeNodes[candidates[q]])
    ensures forall m: nat | m < |state.runtimeNodes| :: !Admissible(state, input, provider, state.runtimeNodes[m])
  {
    forall m: nat | m < |state.runtimeNodes| ensures !Admissible(state, input, provider, state.runtimeNodes[m]) {
      if m in candidates {
        var q: nat :| q < |candidates| && candidates[q] == m;
      }
    }
  }

  /** The loop over one provider's sorted candidates. */
  method FirstAdmissible(state: State, input: Input, provider: Provider) returns (found: Option<nat>)
    ensures found.None? ==>
              forall m: nat | m < |state.runtimeNodes| :: !Admissible(state, input, provider, state.runtimeNodes[m])
    ensures found.Some? ==>
              && found.value < |state.runtimeNodes|
              && Admissible(state, input, provider, state.runtimeNodes[found.value])
              && forall m: nat | m < |state.runtimeNodes|
                                  && Admissible(state, input, provider, state.runtimeNodes[m]) ::
                   m == found.value || Before(state, input, found.value, m)
  {
    var candidates := SortedCandidates(state, input, provider, |state.runtimeNodes|);
    SortedCandidatesAre(state, input, provider, |state.runtimeNodes|);
    for j := 0 to |candidates|
      invariant forall q: nat | q < j :: !Admissible(state, input, provider, state.runtimeNodes[candidates[q]])
    {
      var node := state.runtimeNodes[candidates[j]];
      var adapter := AdapterFor(state.executionAdapters, provider, node);
      if adapter.None? { continue; }
      if input.allowedAdapterIds.Some? && input.allowedAdapterIds.value != []
         && adapter.value.id !in input.allowedAdapterIds.value
      {
        continue;
      }
      var matched := FirstSupported(ModelsToTry(input, provider), node.supportedModels);
      if AsksForModels(input) && matched.None? { continue; }
      var model :=
        if matched.Some? then matched.value
        else if node.supportedModels != [] then node.supportedModels[0]
        else provider.primaryModel;
      if model == "" { continue; }
      FirstOfCandidates(state, input, provider, candidates, j);
      return Some(candidates[j]);
    }
    NoCandidate(state, input, provider, candidates);
    return None;
  }

  lemma LeastFound(state: State, input: Input, i: nat, provider: Provider, k: nat)
    requires i < |OrderedIds(state, input)| && k < |state.runtimeNodes|
    requires FindProvider(state.providers, OrderedIds(state, input)[i]) == Some(provider)
    requires UsableProvider(provider, AuthTiers(state, input))
    requires Admissible(state, input, provider, state.runtimeNodes[k])
    requires forall m: nat | m < |state.runtimeNodes| && Admissible(state, input, provider, state.runtimeNodes[m]) ::
               m == k || Before(state, input, k, m)
    requires forall j: nat, m: nat | j < i :: !AdmissibleAt(state, input, j, m)
    ensures Least(state, input, i, k) && AdmissibleAt(state, input, i, k) && Viable(state, input)
    ensures AdapterFor(state.executionAdapters, provider, state.runtimeNodes[k]).Some?
  {
    assert AdapterFor(state.executionAdapters, provider, state.runtimeNodes[k]).Some?;
    hide Admissible;
    hide OrderedIds;
    hide FindProvider;
    hide UsableProvider;
    hide Before;
  }

  // ----- what the answer means -----

  lemma {:induction false} PolicyIsFirst(policies: seq<FallbackPolicy>, id: Option<string>) returns (i: nat)
    ensures i <= |policies| && forall j: nat | j < i :: Some(policies[j].id) != id
    ensures if i == |policies| then FindPolicy(policies, id).None?
            else Some(policies[i].id) == id && FindPolicy(policies, id) == Some(policies[i])
    decreases |policies|
  {
    i := 0;
    if policies != [] && Some(policies[0].id) != id {
      i := PolicyIsFirst(policies[1..], id);
      assert forall j: nat | 0 < j < i + 1 :: policies[j] == policies[1..][j - 1];
      i := i + 1;
    }
  }

  lemma {:induction false} ProviderIsFirst(providers: seq<Provider>, id: string) returns (i: nat)
    ensures i <= |providers| && forall j: nat | j < i :: providers[j].id != id
    ensures if i == |providers| then FindProvider(providers, id).None?
            else providers[i].id == id && FindProvider(providers, id) == Some(providers[i])
    decreases |providers|
  {
    i := 0;
    if providers != [] && providers[0].id != id {
      i := ProviderIsFirst(providers[1..], id);
      assert forall j: nat | 0 < j < i + 1 :: providers[j] == providers[1..][j - 1];
      i := i + 1;
    }
  }

  lemma {:induction false} NodeIsFirst(nodes: seq<Node>, id: string) returns (i: nat)
    ensures i <= |nodes| && forall j: nat | j < i :: nodes[j].id != id || !nodes[j].deployableOnDemand
    ensures if i == |nodes| then FindNode(nodes, id).None?
            else nodes[i].id == id && nodes[i].deployableOnDemand && FindNode(nodes, id) == Some(nodes[i])
    decreases |nodes|
  {
    i := 0;
    if nodes != [] && !(nodes[0].id == id && nodes[0].deployableOnDemand) {
      i := NodeIsFirst(nodes[1..], id);
      assert forall j: nat | 0 < j < i + 1 :: nodes[j] == nodes[1..][j - 1];
      i := i + 1;
    }
  }

  lemma {:induction false} PreparedIsFirst(actions: seq<RecoveryAction>) returns (i: nat)
    ensures i <= |actions| && forall j: nat | j < i :: !actions[j].prepared
    ensures if i == |actions| then FindPrepared(actions).None?
            else actions[i].prepared && FindPrepared(actions) == Some(actions[i])
    decreases |actions|
  {
    i := 0;
    if actions != [] && !actions[0].prepared {
      i := PreparedIsFirst(actions[1..]);
      assert forall j: nat | 0 < j < i + 1 :: actions[j] == actions[1..][j - 1];
      i := i + 1;
    }
  }

  ghost predicate Supports(adapter: Adapter, provider: Provider, node: Node) {
    && provider.providerType in adapter.supportedProviderTypes
    && provider.authMethod in adapter.supportedAuthMethods
    && node.kind in adapter.supportedRuntimeKinds
  }

  lemma {:induction false} AdapterIsFirst(adapters: seq<Adapter>, provider: Provider, node: Node) returns (i: nat)
    ensures i <= |adapters| && forall j: nat | j < i :: !Supports(adapters[j], provider, node)
    ensures if i == |adapters| then AdapterFor(adapters, provider, node).None?
            else Supports(adapters[i], provider, node) && AdapterFor(adapters, provider, node) == Some(adapters[i])
    decreases |adapters|
  {
    i := 0;
    if adapters != [] && !Supports(adapters[0], provider, node) {
      i := AdapterIsFirst(adapters[1..], provider, node);
      assert forall j: nat | 0 < j < i + 1 :: adapters[j] == adapters[1..][j - 1];
      i := i + 1;
    }
  }

  lemma {:induction false} SupportedIsFirst(models: seq<string>, supported: seq<string>) returns (i: nat)
    ensures i <= |models| && forall j: nat | j < i :: models[j] == "" || models[j] !in supported
    ensures if i == |models| then FirstSupported(models, supported).None?
            else models[i] != "" && models[i] in supported && FirstSupported(models, supported) == Some(models[i])
    decreases |models|
  {
    i := 0;
    if models != [] && !(models[0] != "" && models[0] in supported) {
      i := SupportedIsFirst(models[1..], supported);
      assert forall j: nat | 0 < j < i + 1 :: models[j] == models[1..][j - 1];
      i := i + 1;
    }
  }

  lemma {:induction false} IndexIsFirst(list: seq<string>, value: string)
    ensures var i := IndexOf(list, value);
            && i <= |list| && (forall j: nat | j < i :: list[j] != value) && (i < |list| ==> list[i] == value)
    decreases |list|
  {
    if list != [] && list[0] != value {
      IndexIsFirst(list[1..], value);
      assert forall j: nat | 0 < j < |list| :: list[j] == list[1..][j - 1];
    }
  }

  /** The model is the first one wanted that the node supports.  When none is, and no models were asked for, it is
      the node's first model, or without any the provider's. */
  ghost predicate Runs(input: Input, provider: Provider, node: Node, model: string) {
    model != "" &&
    if input.preferredModels.Some? && input.preferredModels.value != [] then
      var asked := input.preferredModels.value;
      exists j: nat :: j < |asked| && asked[j] == model && model in node.supportedModels &&
                       forall e: nat | e < j :: asked[e] == "" || asked[e] !in node.supportedModels
    else if provider.primaryModel != "" && provider.primaryModel in node.supportedModels then
      model == provider.primaryModel
    else if provider.fallbackModel.Some? && provider.fallbackModel.value != ""
            && provider.fallbackModel.value in node.supportedModels then
      model == provider.fallbackModel.value
    else
      model == if node.supportedModels == [] then provider.primaryModel else node.supportedModels[0]
  }

  lemma AskedModelRuns(input: Input, provider: Provider, node: Node, model: string)
    requires AsksForModels(input)
    ensures ModelFor(input, provider, node) == Some(model) <==> Runs(input, provider, node, model)
  {
    var asked := input.preferredModels.value;
    var i := SupportedIsFirst(asked, node.supportedModels);
    hide FirstSupported;
    if Runs(input, provider, node, model) {
      var j: nat :| j < |asked| && asked[j] == model && model in node.supportedModels &&
                    forall e: nat | e < j :: asked[e] == "" || asked[e] !in node.supportedModels;
      assert !(i < j) && !(j < i);
    }
  }

  lemma ModelRuns(input: Input, provider: Provider, node: Node, model: string)
    ensures ModelFor(input, provider, node) == Some(model) <==> Runs(input, provider, node, model)
  {
    if AsksForModels(input) {
      AskedModelRuns(input, provider, node, model);
    } else {
      var i := SupportedIsFirst(ModelsToTry(input, provider), node.supportedModels);
      hide FirstSupported;
    }
  }

  /** The p-th provider runs the model on the k-th node through the a-th adapter, within the policy: the provider is
      the first one of its id, and the adapter the first one that supports the pair. */
  ghost predicate InPolicy(state: State, input: Input, p: nat, k: nat, a: nat, model: string) {
    && p < |state.providers| && k < |state.runtimeNodes| && a < |state.executionAdapters|
    && var provider, node, adapter := state.providers[p], state.runtimeNodes[k], state.executionAdapters[a];
       && (forall q: nat | q < p :: state.providers[q].id != provider.id)
       && !provider.missing && !provider.credentialMissing
       && provider.authTier in AuthTiers(state, input) && node.authTier in AuthTiers(state, input)
       && node.providerProfileId == provider.id
       && !node.health.Unavailable? && (node.health.Deployable? ==> node.deployableOnDemand)
       && Permits(input.allowedRuntimeKinds, node.kind) && Permits(input.allowedAdapterIds, adapter.id)
       && Supports(adapter, provider, node)
       && (forall b: nat | b < a :: !Supports(state.executionAdapters[b], provider, node))
       && Runs(input, provider, node, model)
  }

  lemma AdmissibleIsInPolicy(state: State, input: Input, i: nat, k: nat) returns (p: nat, a: nat, model: string)
    requires AdmissibleAt(state, input, i, k)
    ensures InPolicy(state, input, p, k, a, model) && state.providers[p].id == OrderedIds(state, input)[i]
    ensures var d := DecisionAt(state, input, i, k);
            && d.providerId == Some(state.providers[p].id) && d.nodeId == Some(state.runtimeNodes[k].id)
            && d.adapterId == Some(state.executionAdapters[a].id) && d.model == Some(model)
            && d.authTier == state.providers[p].authTier && d.recoveryActionId.None?
            && (d.reason.PrimaryHealthy? <==>
                d.providerId == input.primary && state.runtimeNodes[k].health.Ready?)
            && (d.reason.FallbackInPolicy? <==> !d.reason.PrimaryHealthy?)
            && (d.usingFallback <==> d.providerId != input.primary || i > 0)
  {
    var id := OrderedIds(state, input)[i];
    p := ProviderIsFirst(state.providers, id);
    a := AdapterIsFirst(state.executionAdapters, state.providers[p], state.runtimeNodes[k]);
    model := ModelFor(input, state.providers[p], state.runtimeNodes[k]).value;
    ModelRuns(input, state.providers[p], state.runtimeNodes[k], model);
    hide FindProvider, AdapterFor, ModelFor, Runs, Supports, OrderedIds, AuthTiers, Permits, PolicyIdOf;
  }

  lemma InPolicyIsAdmissible(state: State, input: Input, i: nat, p: nat, k: nat, a: nat, model: string)
    requires InPolicy(state, input, p, k, a, model)
    requires i < |OrderedIds(state, input)| && state.providers[p].id == OrderedIds(state, input)[i]
    ensures AdmissibleAt(state, input, i, k)
  {
    var q := ProviderIsFirst(state.providers, state.providers[p].id);
    assert q == p;
    var b := AdapterIsFirst(state.executionAdapters, state.providers[p], state.runtimeNodes[k]);
    assert b == a;
    ModelRuns(input, state.providers[p], state.runtimeNodes[k], model);
    hide FindProvider, AdapterFor, ModelFor, Runs, Supports, OrderedIds, AuthTiers, Permits;
  }

  /** Each occurrence of b has one of a before it. */
  ghost predicate Precedes<T>(list: seq<T>, a: T, b: T) {
    forall y: nat | y < |list| && list[y] == b :: exists x: nat :: x < y && list[x] == a
  }

  lemma {:induction false} FirstPermittedOrder(items: seq<Option<string>>, allowed: Option<seq<string>>, i: nat, j: nat)
    requires i < j < |FirstPermitted(items, allowed)|
    ensures var ids := FirstPermitted(items, allowed); Precedes(items, Some(ids[i]), Some(ids[j]))
    decreases |items|
  {
    var before, last := items[..|items| - 1], items[|items| - 1];
    var ids, earlier := FirstPermitted(items, allowed), FirstPermitted(before, allowed);
    FirstPermittedDistinct(before, allowed);
    assert earlier == ids[..|earlier|];
    assert ids[i] == earlier[i] && earlier[i] in earlier;
    var x: nat :| x < |before| && before[x] == Some(ids[i]);
    assert items[x] == Some(ids[i]) && forall y: nat | y < |before| :: items[y] == before[y];
    if j < |earlier| {
      FirstPermittedOrder(before, allowed, i, j);
      var wanted := Some(ids[j]);
      assert wanted == Some(earlier[j]);
      hide FirstPermitted, Permits;
      forall y: nat | y < |items| && items[y] == wanted ensures exists x: nat :: x < y && items[x] == Some(ids[i]) {
        if y < |before| {
          var z: nat :| z < y && before[z] == Some(ids[i]);
          assert items[z] == Some(ids[i]);
        }
      }
    } else {
      assert last == Some(ids[j]) && last !in before;
    }
  }

  /** The preferred providers are visited first, in their order, then the primary one, the fallback, and the ones the
      policy lists, in its order. */
  ghost predicate VisitedBefore(state: State, input: Input, a: string, b: string) {
    var preferred := if input.preferredProviderIds.Some? then input.preferredProviderIds.value else [];
    var listed := if PolicyOf(state, input).Some? then PolicyOf(state, input).value.orderedProviderProfileIds else [];
    if b in preferred then Precedes(preferred, a, b)
    else a in preferred || Some(a) == input.primary ||
         (Some(b) != input.primary &&
          (Some(a) == input.fallback || (Some(b) != input.fallback && Precedes(listed, a, b))))
  }

  lemma PrecedesWithin<T>(before: seq<T>, list: seq<T>, after: seq<T>, a: T, b: T)
    requires Precedes(before + list + after, a, b) && a !in before && b !in before
    ensures Precedes(list, a, b)
  {
    var all := before + list + after;
    assert forall z: nat | z < |before| :: all[z] == before[z] && before[z] in before;
    forall y: nat | y < |list| && list[y] == b ensures exists x: nat :: x < y && list[x] == a {
      assert all[|before| + y] == b;
      var x: nat :| x < |before| + y && all[x] == a;
      assert list[x - |before|] == a;
    }
  }

  lemma PrecedesFirst<T>(list: seq<T>, after: seq<T>, a: T, b: T)
    requires Precedes(list + after, a, b) && b in list
    ensures a in list && Precedes(list, a, b)
  {
    assert list + after == [] + list + after;
    var y: nat :| y < |list| && list[y] == b;
    assert (list + after)[y] == b;
    var x: nat :| x < y && (list + after)[x] == a;
    assert list[x] == a;
    PrecedesWithin([], list, after, a, b);
  }

  lemma AllSomePrecedes(ids: seq<string>, a: string, b: string)
    requires Precedes(AllSome(ids), Some(a), Some(b))
    ensures Precedes(ids, a, b)
  {
    forall y: nat | y < |ids| && ids[y] == b ensures exists x: nat :: x < y && ids[x] == a {
      assert AllSome(ids)[y] == Some(b);
      var x: nat :| x < y && AllSome(ids)[x] == Some(a);
      assert ids[x] == a;
    }
  }

  lemma AllSomeMembers(ids: seq<string>, id: string)
    ensures Some(id) in AllSome(ids) <==> id in ids
  {
    if id in ids {
      var i: nat :| i < |ids| && ids[i] == id;
      assert AllSome(ids)[i] == Some(id);
    }
  }

  /** Providers come in the order of their sources: preferred, primary, fallback, policy. */
  lemma VisitOrder(state: State, input: Input, i: nat, j: nat)
    requires i < j < |OrderedIds(state, input)|
    ensures VisitedBefore(state, input, OrderedIds(state, input)[i], OrderedIds(state, input)[j])
  {
    var a, b := OrderedIds(state, input)[i], OrderedIds(state, input)[j];
    var preferred := if input.preferredProviderIds.Some? then input.preferredProviderIds.value else [];
    var listed := if PolicyOf(state, input).Some? then PolicyOf(state, input).value.orderedProviderProfileIds else [];
    FirstPermittedOrder(RawIds(state, input), input.allowedProviderIds, i, j);
    var all := AllSome(preferred) + [input.primary, input.fallback] + AllSome(listed);
    assert RawIds(state, input) == all;
    hide FirstPermitted, OrderedIds, RawIds, PolicyOf;
    AllSomeMembers(preferred, a);
    AllSomeMembers(preferred, b);
    hide AllSome;
    if b in preferred {
      assert all == AllSome(preferred) + ([input.primary, input.fallback] + AllSome(listed));
      PrecedesFirst(AllSome(preferred), [input.primary, input.fallback] + AllSome(listed), Some(a), Some(b));
      AllSomePrecedes(preferred, a, b);
    } else if a !in preferred {
      assert all == AllSome(preferred) + ([input.primary, input.fallback] + AllSome(listed)) + [];
      PrecedesWithin(AllSome(preferred), [input.primary, input.fallback] + AllSome(listed), [], Some(a), Some(b));
      AfterPreferred(input, listed, a, b);
    }
  }

  lemma AfterPreferred(input: Input, listed: seq<string>, a: string, b: string)
    requires Precedes([input.primary, input.fallback] + AllSome(listed), Some(a), Some(b))
    ensures Some(a) == input.primary ||
            (Some(b) != input.primary &&
             (Some(a) == input.fallback || (Some(b) != input.fallback && Precedes(listed, a, b))))
  {
    var two := [input.primary, input.fallback];
    hide AllSome;
    if Some(a) != input.primary {
      assert Some(b) != input.primary by {
        assert (two + AllSome(listed))[0] == input.primary;
      }
      if Some(a) != input.fallback {
        assert Some(b) != input.fallback by {
          assert (two + AllSome(listed))[0] == input.primary && (two + AllSome(listed))[1] == input.fallback;
        }
        assert two + AllSome(listed) == two + AllSome(listed) + [];
        PrecedesWithin(two, AllSome(listed), [], Some(a), Some(b));
        AllSomePrecedes(listed, a, b);
      }
    }
  }

  /** The answer when no pair is in policy: the first prepared recovery action's first deployable node, when
      recovery is allowed and both exist. */
  lemma LastResortIs(state: State, input: Input)
    ensures var d := LastResort(state, input);
            && (d.reason.ResurrectionAvailable? <==>
                ResurrectionAllowed(state, input) && exists r: nat, k: nat :: Recovers(state, r, k))
            && (forall r: nat, k: nat | ResurrectionAllowed(state, input) && Recovers(state, r, k) ::
                  && d.recoveryActionId == Some(state.recoveryActions[r].id)
                  && d.nodeId == Some(state.runtimeNodes[k].id) && d.authTier == state.runtimeNodes[k].authTier
                  && (state.runtimeNodes[k].supportedModels != [] ==>
                        d.model == Some(state.runtimeNodes[k].supportedModels[0]))
                  && (d.providerId.Some? <==>
                      exists provider <- state.providers :: provider.id == state.runtimeNodes[k].providerProfileId)
                  && (d.providerId.Some? ==> d.providerId.value == state.runtimeNodes[k].providerProfileId)
                  && forall p: nat | ProvidedBy(state, k, p) ::
                       && (d.adapterId.Some? <==>
                           exists adapter <- state.executionAdapters ::
                             Supports(adapter, state.providers[p], state.runtimeNodes[k]))
                       && (state.runtimeNodes[k].supportedModels == [] ==>
                             d.model == Some(state.providers[p].primaryModel)))
            && (!d.reason.ResurrectionAvailable? ==>
                  && d.reason.NoViableRoute? && d.providerId.None? && d.nodeId.None? && d.adapterId.None?
                  && d.model.None? && d.recoveryActionId.None?)
            && d.usingFallback
  {
    var r := PreparedIsFirst(state.recoveryActions);
    if r < |state.recoveryActions| {
      var k := NodeIsFirst(state.runtimeNodes, state.recoveryActions[r].runtimeNodeId);
      forall s: nat, m: nat | Recovers(state, s, m) ensures s == r && m == k {
        assert s == r && Redeployable(state, r, m);
        assert k < |state.runtimeNodes| ==> Redeployable(state, r, k);
      }
      if k < |state.runtimeNodes| {
        assert Recovers(state, r, k);
        var p := ProviderIsFirst(state.providers, state.runtimeNodes[k].providerProfileId);
        assert forall q: nat | ProvidedBy(state, k, q) :: q == p;
        if p < |state.providers| {
          var a := AdapterIsFirst(state.executionAdapters, state.providers[p], state.runtimeNodes[k]);
        }
      }
      hide ProvidedBy, Supports;
      hide FindPrepared, FindNode, FindProvider, AdapterFor, PolicyIdOf, ResurrectionAllowed;
      hide Recovers;
    }
  }

  /** The p-th provider is the node's: the first of the id. */
  ghost predicate ProvidedBy(state: State, k: nat, p: nat)
    requires k < |state.runtimeNodes|
  {
    && p < |state.providers| && state.providers[p].id == state.runtimeNodes[k].providerProfileId
    && forall q: nat | q < p :: state.providers[q].id != state.providers[p].id
  }

  ghost predicate Recovers(state: State, r: nat, k: nat) {
    && r < |state.recoveryActions| && k < |state.runtimeNodes|
    && state.recoveryActions[r].prepared && (forall s: nat | s < r :: !state.recoveryActions[s].prepared)
    && Redeployable(state, r, k) && forall m: nat | m < k :: !Redeployable(state, r, m)
  }

  ghost predicate Redeployable(state: State, r: nat, k: nat)
    requires r < |state.recoveryActions| && k < |state.runtimeNodes|
  {
    state.runtimeNodes[k].id == state.recoveryActions[r].runtimeNodeId && state.runtimeNodes[k].deployableOnDemand
  }

  /** The policy is the first one of the id asked for, or else the first of all. */
  lemma PolicyIs(state: State, input: Input)
    ensures var policies, policy := state.fallbackPolicies, PolicyOf(state, input);
            && (policy.None? <==> policies == [])
            && ((forall j: nat | j < |policies| :: Some(policies[j].id) != input.fallbackPolicyId) ==>
                  policies == [] || policy == Some(policies[0]))
            && (forall i: nat | i < |policies| && Some(policies[i].id) == input.fallbackPolicyId
                                && (forall j: nat | j < i :: Some(policies[j].id) != input.fallbackPolicyId) ::
                  policy == Some(policies[i]))
  {
    var first := PolicyIsFirst(state.fallbackPolicies, input.fallbackPolicyId);
    hide FindPolicy;
  }

  /** What the call leaves open, the policy decides; without any policy, opting in does for experimental tiers, and
      nothing for recovery. */
  lemma PermissionsAre(state: State, input: Input)
    ensures input.allowedAuthTiers.Some? ==> AuthTiers(state, input) == input.allowedAuthTiers.value
    ensures input.allowedAuthTiers.None? ==>
              "supported" in AuthTiers(state, input) &&
              ("experimental" in AuthTiers(state, input) <==>
                var asked, policy := input.allowExperimentalAuth, PolicyOf(state, input);
                asked == Some(true) ||
                (asked == None && (policy != None ==> policy.value.allowExperimentalAuth)
                               && (policy == None ==> state.allowOptIn))) &&
              forall tier <- AuthTiers(state, input) :: tier in {"supported", "experimental"}
    ensures ResurrectionAllowed(state, input) <==>
              var asked, policy := input.allowResurrection, PolicyOf(state, input);
              asked == Some(true) || (asked == None && policy != None && policy.value.allowResurrection)
  {
    hide PolicyOf;
  }

  /** A route is found exactly when some provider of the search has one in policy. */
  lemma ViableExactly(state: State, input: Input)
    ensures Viable(state, input) <==>
            exists p: nat, k: nat, a: nat, model: string ::
              InPolicy(state, input, p, k, a, model) && state.providers[p].id in OrderedIds(state, input)
  {
    if Viable(state, input) {
      var i: nat, k: nat :| AdmissibleAt(state, input, i, k);
      var p, a, model := AdmissibleIsInPolicy(state, input, i, k);
      AdmissibleInRange(state, input, i, k);
      assert InPolicy(state, input, p, k, a, model) && state.providers[p].id in OrderedIds(state, input);
    }
    if p: nat, k: nat, a: nat, model: string
      :| InPolicy(state, input, p, k, a, model) && state.providers[p].id in OrderedIds(state, input)
    {
      var i: nat :| i < |OrderedIds(state, input)| && OrderedIds(state, input)[i] == state.providers[p].id;
      InPolicyIsAdmissible(state, input, i, p, k, a, model);
    }
  }

  /** A named value comes before every value named after it or not named at all; values that are not named tie. */
  lemma RankOrder(list: seq<string>, x: string, y: string)
    requires |list| <= MAX_SAFE_INTEGER
    ensures Rank(None, x) == Rank(None, y)
    ensures Rank(Some(list), x) < Rank(Some(list), y) <==> x != y && x in list && Precedes(list, x, y)
    ensures Rank(Some(list), x) == Rank(Some(list), y) <==> x == y || (x !in list && y !in list)
  {
    IndexIsFirst(list, x);
    IndexIsFirst(list, y);
    var i, j := IndexOf(list, x), IndexOf(list, y);
    hide IndexOf;
    assert x in list ==> i < |list| && list[i] == x;
    assert y in list ==> j < |list| && list[j] == y;
  }
}
