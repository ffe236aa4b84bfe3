/** Workload strategies: expanding a strategy's routes, reordering them by cost posture,
    and widening the search for a preferred model, before the resolver is asked. */
module StrategyRoute {
  import opened Options
  import opened ProviderRoute

  datatype Posture = FreeLocal | Subscription | PaidApi | EmergencyOnly | UnknownPosture

  datatype Route = Route(providerId: string, nodeId: Option<string>, model: string, costPosture: Option<Posture>)

  datatype Chain = Chain(id: string, orderedRoutes: seq<Route>, lastResort: Option<Route>)

  datatype Strategy = Strategy(primaryRoute: Route, fallbackChainId: string, hardStopWhenNoFallback: bool)

  datatype Shell = Shell(routing: State, fallbackChains: seq<Chain>, activeCostPosture: Option<Posture>)

  datatype Request = Request(
    preferredModel: Option<string>, allowedRuntimeKinds: Option<seq<string>>, preferredLocalities: Option<seq<string>>)

  // ----- expansion and reordering -----

  function FindChain(chains: seq<Chain>, id: string): Option<Chain> {
    if chains == [] then None else if chains[0].id == id then Some(chains[0]) else FindChain(chains[1..], id)
  }

  function ExpandRoutes(shell: Shell, strategy: Strategy): seq<Route> {
    match FindChain(shell.fallbackChains, strategy.fallbackChainId)
    case None => [strategy.primaryRoute]
    case Some(chain) =>
      [strategy.primaryRoute] + chain.orderedRoutes + (if chain.lastResort.Some? then [chain.lastResort.value] else [])
  }

  function Where(test: Route -> bool, routes: seq<Route>): seq<Route> {
    if routes == [] then []
    else Where(test, routes[..|routes| - 1]) + if test(routes[|routes| - 1]) then [routes[|routes| - 1]] else []
  }

  function ReorderByPosture(routes: seq<Route>, active: Posture): seq<Route> {
    match active
    case FreeLocal =>
      Where((r: Route) => r.costPosture == Some(FreeLocal), routes)
      + Where((r: Route) =>
                r.costPosture.None? || (r.costPosture != Some(FreeLocal) && r.costPosture != Some(PaidApi)), routes)
      + Where((r: Route) => r.costPosture == Some(PaidApi), routes)
    case EmergencyOnly =>
      Where((r: Route) => r.costPosture == Some(EmergencyOnly) || r.costPosture == Some(FreeLocal), routes)
      + Where((r: Route) => r.costPosture != Some(EmergencyOnly) && r.costPosture != Some(FreeLocal), routes)
    case _ => routes
  }

  /** How far back a posture puts a route. */
  function Priority(active: Posture, route: Route): nat {
    match active
    case FreeLocal =>
      if route.costPosture == Some(FreeLocal) then 0 else if route.costPosture == Some(PaidApi) then 2 else 1
    case EmergencyOnly =>
      if route.costPosture == Some(EmergencyOnly) || route.costPosture == Some(FreeLocal) then 0 else 1
    case _ => 0
  }

  function Bucket(active: Posture, priority: nat): Route -> bool {
    (r: Route) => Priority(active, r) == priority
  }

  lemma {:induction false} WhereAgrees(p: Route -> bool, q: Route -> bool, routes: seq<Route>)
    requires forall r <- routes :: p(r) == q(r)
    ensures Where(p, routes) == Where(q, routes)
    decreases |routes|
  {
    if routes != [] {
      assert routes[|routes| - 1] in routes;
      WhereAgrees(p, q, routes[..|routes| - 1]);
    }
  }

  lemma {:induction false} WhereConcat(p: Route -> bool, a: seq<Route>, b: seq<Route>)
    ensures Where(p, a + b) == Where(p, a) + Where(p, b)
    decreases |b|
  {
    if b == [] {
      assert a + b == a;
    } else {
      assert (a + b)[..|a + b| - 1] == a + b[..|b| - 1];
      WhereConcat(p, a, b[..|b| - 1]);
    }
  }

  lemma {:induction false} WhereMembers(p: Route -> bool, routes: seq<Route>)
    ensures forall r :: r in Where(p, routes) <==> r in routes && p(r)
    ensures |Where(p, routes)| <= |routes|
    decreases |routes|
  {
    if routes != [] {
      var rest, last := routes[..|routes| - 1], routes[|routes| - 1];
      WhereMembers(p, rest);
      assert routes == rest + [last];
    }
  }

  /** Keeping by one test what another kept: all of it, or nothing. */
  lemma {:induction false} WhereNested(active: Posture, p: nat, q: nat, routes: seq<Route>)
    ensures Where(Bucket(active, p), Where(Bucket(active, q), routes)) ==
            if p == q then Where(Bucket(active, p), routes) else []
    decreases |routes|
  {
    if routes != [] {
      var rest, last := routes[..|routes| - 1], routes[|routes| - 1];
      WhereNested(active, p, q, rest);
      var kept := if Priority(active, last) == q then [last] else [];
      WhereConcat(Bucket(active, p), Where(Bucket(active, q), rest), kept);
      if kept != [] {
        assert [last][..0] == [];
        assert Where(Bucket(active, p), [last]) == if Priority(active, last) == p then [last] else [];
      }
    }
  }

  /** A bucket holds each of its routes as often as the list does. */
  lemma {:induction false} BucketCounts(active: Posture, p: nat, routes: seq<Route>, r: Route)
    ensures multiset(Where(Bucket(active, p), routes))[r] == if Priority(active, r) == p then multiset(routes)[r] else 0
    decreases |routes|
  {
    if routes != [] {
      var rest, last := routes[..|routes| - 1], routes[|routes| - 1];
      BucketCounts(active, p, rest, r);
      assert routes == rest + [last];
    }
  }

  /** The three buckets make up the list. */
  lemma BucketsPartition(active: Posture, routes: seq<Route>)
    ensures multiset(
              Where(Bucket(active, 0), routes) + Where(Bucket(active, 1), routes) + Where(Bucket(active, 2), routes))
            == multiset(routes)
  {
    var zero, one := Where(Bucket(active, 0), routes), Where(Bucket(active, 1), routes);
    var two := Where(Bucket(active, 2), routes);
    var out := zero + one + two;
    forall r: Route ensures multiset(out)[r] == multiset(routes)[r] {
      BucketCounts(active, 0, routes, r);
      BucketCounts(active, 1, routes, r);
      BucketCounts(active, 2, routes, r);
      hide Where;
      assert multiset(out)[r] == multiset(zero)[r] + multiset(one)[r] + multiset(two)[r];
    }
    hide *;
  }

  lemma MemberOrEmpty(routes: seq<Route>)
    ensures routes == [] || exists r: Route :: r in routes
  {
    if routes != [] {
      assert routes[0] in routes;
    }
  }

  lemma ReorderIsBuckets(routes: seq<Route>, active: Posture)
    requires active.FreeLocal? || active.EmergencyOnly?
    ensures ReorderByPosture(routes, active) ==
            Where(Bucket(active, 0), routes) + Where(Bucket(active, 1), routes) + Where(Bucket(active, 2), routes)
  {
    if active.FreeLocal? {
      WhereAgrees((r: Route) => r.costPosture == Some(FreeLocal), Bucket(active, 0), routes);
      WhereAgrees(
        (r: Route) => r.costPosture.None? || (r.costPosture != Some(FreeLocal) && r.costPosture != Some(PaidApi)),
        Bucket(active, 1), routes);
      WhereAgrees((r: Route) => r.costPosture == Some(PaidApi), Bucket(active, 2), routes);
    } else {
      WhereAgrees(
        (r: Route) => r.costPosture == Some(EmergencyOnly) || r.costPosture == Some(FreeLocal),
        Bucket(active, 0), routes);
      WhereAgrees(
        (r: Route) => r.costPosture != Some(EmergencyOnly) && r.costPosture != Some(FreeLocal),
        Bucket(active, 1), routes);
      WhereMembers(Bucket(active, 2), routes);
      var third := Where(Bucket(active, 2), routes);
      MemberOrEmpty(third);
    }
  }

  lemma {:induction false} BucketZeroIsAll(active: Posture, routes: seq<Route>)
    requires !active.FreeLocal? && !active.EmergencyOnly?
    ensures Where(Bucket(active, 0), routes) == routes
    decreases |routes|
  {
    if routes != [] {
      BucketZeroIsAll(active, routes[..|routes| - 1]);
    }
  }

  /** Reordering is the stable sort by priority: a permutation, in order of priority, that keeps the
      order of the routes of each priority. */
  lemma ReorderIsStableSort(routes: seq<Route>, active: Posture)
    ensures var out := ReorderByPosture(routes, active);
            && multiset(out) == multiset(routes)
            && (forall i: nat, j: nat | i < j < |out| :: Priority(active, out[i]) <= Priority(active, out[j]))
            && (forall p: nat :: Where(Bucket(active, p), out) == Where(Bucket(active, p), routes))
  {
    if active.FreeLocal? || active.EmergencyOnly? {
      var zero, one := Where(Bucket(active, 0), routes), Where(Bucket(active, 1), routes);
      var two := Where(Bucket(active, 2), routes);
      ReorderIsBuckets(routes, active);
      BucketsPartition(active, routes);
      ReorderInOrder(routes, active, zero, one, two);
      var out := zero + one + two;
      hide *;
      forall p: nat ensures Where(Bucket(active, p), out) == Where(Bucket(active, p), routes) {
        BucketKept(routes, active, p);
      }
    }
  }

  lemma BucketKept(routes: seq<Route>, active: Posture, p: nat)
    ensures var zero, one := Where(Bucket(active, 0), routes), Where(Bucket(active, 1), routes);
            var two := Where(Bucket(active, 2), routes);
            Where(Bucket(active, p), zero + one + two) == Where(Bucket(active, p), routes)
  {
    var zero, one := Where(Bucket(active, 0), routes), Where(Bucket(active, 1), routes);
    var two := Where(Bucket(active, 2), routes);
    hide *;
    WhereConcat(Bucket(active, p), zero + one, two);
    WhereConcat(Bucket(active, p), zero, one);
    WhereNested(active, p, 0, routes);
    WhereNested(active, p, 1, routes);
    WhereNested(active, p, 2, routes);
    if p > 2 {
      NoFurtherBucket(active, p, routes);
    }
  }

  lemma NoFurtherBucket(active: Posture, p: nat, routes: seq<Route>)
    requires p > 2
    ensures Where(Bucket(active, p), routes) == []
  {
    WhereMembers(Bucket(active, p), routes);
    MemberOrEmpty(Where(Bucket(active, p), routes));
  }

  lemma ReorderInOrder(routes: seq<Route>, active: Posture, zero: seq<Route>, one: seq<Route>, two: seq<Route>)
    requires zero == Where(Bucket(active, 0), routes) && one == Where(Bucket(active, 1), routes)
    requires two == Where(Bucket(active, 2), routes)
    ensures var out := zero + one + two;
            forall i: nat, j: nat | i < j < |out| :: Priority(active, out[i]) <= Priority(active, out[j])
  {
    WhereMembers(Bucket(active, 0), routes);
    WhereMembers(Bucket(active, 1), routes);
    WhereMembers(Bucket(active, 2), routes);
    hide Where;
    var out := zero + one + two;
    forall i: nat | i < |out|
      ensures Priority(active, out[i]) == if i < |zero| then 0 else if i < |zero| + |one| then 1 else 2
    {
      if i < |zero| {
        assert out[i] == zero[i] && zero[i] in zero;
      } else if i < |zero| + |one| {
        assert out[i] == one[i - |zero|] && out[i] in one;
      } else {
        assert out[i] == two[i - |zero| - |one|] && out[i] in two;
      }
    }
  }

  // ----- the question put to the resolver -----

  function Unique(ids: seq<string>): seq<string> {
    if ids == [] then []
    else
      var before, last := ids[..|ids| - 1], ids[|ids| - 1];
      Unique(before) + if last in before then [] else [last]
  }

  lemma {:induction false} UniqueMembers(ids: seq<string>)
    ensures forall id: string :: id in Unique(ids) <==> id in ids
    ensures ids != [] ==> Unique(ids) != []
    decreases |ids|
  {
    if ids != [] {
      var before, last := ids[..|ids| - 1], ids[|ids| - 1];
      UniqueMembers(before);
      assert ids == before + [last];
    }
  }

  function Models(routes: seq<Route>): seq<string> {
    seq(|routes|, i requires 0 <= i < |routes| => routes[i].model)
  }

  function ProviderIds(routes: seq<Route>): seq<string> {
    seq(|routes|, i requires 0 <= i < |routes| => routes[i].providerId)
  }

  function NodeIds(routes: seq<Route>): seq<string> {
    if routes == [] then []
    else
      var last := routes[|routes| - 1];
      NodeIds(routes[..|routes| - 1]) + if last.nodeId.Some? then [last.nodeId.value] else []
  }

  function OtherProvider(routes: seq<Route>, primary: string): Option<string> {
    if routes == [] then None
    else if routes[0].providerId != primary then Some(routes[0].providerId)
    else OtherProvider(routes[1..], primary)
  }

  lemma {:induction false} OtherProviderIsFirst(routes: seq<Route>, primary: string) returns (i: nat)
    ensures i <= |routes| && forall j: nat | j < i :: routes[j].providerId == primary
    ensures if i == |routes| then OtherProvider(routes, primary).None?
            else routes[i].providerId != primary && OtherProvider(routes, primary) == Some(routes[i].providerId)
    decreases |routes|
  {
    i := 0;
    if routes != [] && routes[0].providerId == primary {
      i := OtherProviderIsFirst(routes[1..], primary);
      assert forall j: nat | 0 < j < i + 1 :: routes[j] == routes[1..][j - 1];
      i := i + 1;
    }
  }

  predicate CanServe(state: State, provider: Provider, node: Node, model: string, kinds: Option<seq<string>>) {
    && !provider.missing && node.providerProfileId == provider.id
    && (node.kind != "remote-user-owned" || "http" <= node.endpoint)
    && (node.health.Ready? || node.health.Degraded? || node.health.Deployable?)
    && (!node.health.Deployable? || node.deployableOnDemand)
    && Permits(kinds, node.kind)
    && model in provider.allowedModels && model in node.supportedModels
    && AdapterFor(state.executionAdapters, provider, node).Some?
  }

  function ServingProviders(
    state: State, providers: seq<Provider>, model: string, kinds: Option<seq<string>>): seq<string>
  {
    if providers == [] then []
    else
      var last := providers[|providers| - 1];
      ServingProviders(state, providers[..|providers| - 1], model, kinds) +
      if exists node <- state.runtimeNodes :: CanServe(state, last, node, model, kinds) then [last.id] else []
  }

  function RoutesOf(shell: Shell, strategy: Strategy): seq<Route> {
    ReorderByPosture(ExpandRoutes(shell, strategy),
                     if shell.activeCostPosture.Some? then shell.activeCostPosture.value else Subscription)
  }

  /** The preferred model, when it is one of the strategy's. */
  function EffectiveModel(routes: seq<Route>, preferred: Option<string>): Option<string> {
    if preferred.Some? && preferred.value != "" && preferred.value in Models(routes) then preferred else None
  }

  function PreferredProviders(state: State, effective: Option<string>, kinds: Option<seq<string>>): seq<string> {
    if effective.None? || effective.value == "" then []
    else ServingProviders(state, state.providers, effective.value, kinds)
  }

  function StrategyInput(shell: Shell, strategy: Strategy, request: Request): Input {
    var routes := RoutesOf(shell, strategy);
    var models := Unique(Models(routes));
    var effective := EffectiveModel(routes, request.preferredModel);
    var preferred := PreferredProviders(shell.routing, effective, request.allowedRuntimeKinds);
    Input(
      Some(strategy.primaryRoute.providerId),
      OtherProvider(routes, strategy.primaryRoute.providerId),
      Some(Unique(ProviderIds(routes) + preferred)),
      Some(Unique(preferred + ProviderIds(routes))),
      Some(Unique(NodeIds(routes))),
      Some(if effective.Some? then [effective.value] + models else models),
      request.allowedRuntimeKinds,
      None,
      request.preferredLocalities,
      None,
      None,
      Some(!strategy.hardStopWhenNoFallback),
      Some("core-default"))
  }

  // ----- fail-open -----

  lemma {:induction false} FirstSupportedExists(models: seq<string>, supported: seq<string>)
    ensures FirstSupported(models, supported).Some? <==> exists m <- models :: m != "" && m in supported
    ensures FirstSupported(models, supported).Some? ==> FirstSupported(models, supported).value != ""
    decreases |models|
  {
    if models != [] {
      FirstSupportedExists(models[1..], supported);
      assert models == [models[0]] + models[1..];
    }
  }

  /** An input that asks for models admits a pair by a model in common. */
  lemma ModelForExists(input: Input, provider: Provider, node: Node)
    requires AsksForModels(input)
    ensures ModelFor(input, provider, node).Some? <==>
            exists m <- input.preferredModels.value :: m != "" && m in node.supportedModels
  {
    FirstSupportedExists(input.preferredModels.value, node.supportedModels);
  }

  /** Two inputs that agree on policy and restrictions, the second with at least the models and the
      provider ids of the first. */
  ghost predicate Widens(state: State, a: Input, b: Input) {
    && AsksForModels(a) && AsksForModels(b)
    && (forall m <- a.preferredModels.value :: m in b.preferredModels.value)
    && (forall id <- OrderedIds(state, a) :: id in OrderedIds(state, b))
    && AuthTiers(state, a) == AuthTiers(state, b)
    && a.allowedRuntimeKinds == b.allowedRuntimeKinds && a.allowedAdapterIds == b.allowedAdapterIds
  }

  lemma WidenedAdmits(state: State, a: Input, b: Input, provider: Provider, node: Node)
    requires Widens(state, a, b) && Admissible(state, a, provider, node)
    ensures Admissible(state, b, provider, node)
  {
    hide OrderedIds;
    hide AuthTiers;
    hide AdapterFor;
    hide ModelFor;
    ModelForExists(a, provider, node);
    ModelForExists(b, provider, node);
  }

  /** A wider input is viable when the narrower one is. */
  lemma WidenedViable(state: State, a: Input, b: Input)
    requires Widens(state, a, b) && Viable(state, a)
    ensures Viable(state, b)
  {
    var i: nat, k: nat :| AdmissibleAt(state, a, i, k);
    var id := OrderedIds(state, a)[i];
    var provider := FindProvider(state.providers, id).value;
    WidenedAdmits(state, a, b, provider, state.runtimeNodes[k]);
    assert id in OrderedIds(state, a);
    var j: nat :| j < |OrderedIds(state, b)| && OrderedIds(state, b)[j] == id;
    hide Admissible;
    hide UsableProvider;
    hide OrderedIds;
    assert AdmissibleAt(state, b, j, k);
  }

  lemma {:induction false} UniqueOrder(ids: seq<string>, i: nat, j: nat)
    requires i < j < |Unique(ids)|
    ensures Precedes(ids, Unique(ids)[i], Unique(ids)[j])
    decreases |ids|
  {
    var before, last := ids[..|ids| - 1], ids[|ids| - 1];
    var all, earlier := Unique(ids), Unique(before);
    UniqueMembers(before);
    assert earlier == all[..|earlier|] && all[i] == earlier[i] && earlier[i] in earlier;
    var x: nat :| x < |before| && before[x] == all[i];
    assert ids == before + [last] && ids[x] == all[i];
    if j < |earlier| {
      UniqueOrder(before, i, j);
      var wanted := all[j];
      assert wanted == earlier[j];
      hide Unique;
      forall y: nat | y < |ids| && ids[y] == wanted ensures exists z: nat :: z < y && ids[z] == all[i] {
        if y < |before| {
          assert before[y] == wanted;
          var z: nat :| z < y && before[z] == all[i];
          assert ids[z] == all[i];
        }
      }
    } else {
      assert forall y: nat | y < |before| :: ids[y] == before[y];
    }
  }

  lemma UniqueDistinct(ids: seq<string>)
    ensures Distinct(Unique(ids))
  {
    forall i: nat, j: nat | i < j < |Unique(ids)| ensures Unique(ids)[i] != Unique(ids)[j] {
      UniqueOrder(ids, i, j);
      UniqueMembers(ids);
      assert Unique(ids)[i] in Unique(ids);
      NeverBeforeItself(ids, Unique(ids)[i]);
    }
  }

  lemma NeverBeforeItself(ids: seq<string>, id: string)
    requires id in ids
    ensures !Precedes(ids, id, id)
  {
    IndexIsFirst(ids, id);
    assert IndexOf(ids, id) < |ids|;
  }

  lemma {:induction false} PermittedStay(ids: seq<string>, allowed: Option<seq<string>>)
    requires Distinct(ids) && forall id <- ids :: Permits(allowed, id)
    ensures FirstPermitted(AllSome(ids), allowed) == ids
    decreases |ids|
  {
    if ids != [] {
      var before, last := ids[..|ids| - 1], ids[|ids| - 1];
      assert AllSome(ids)[..|ids| - 1] == AllSome(before);
      assert last !in before;
      AllSomeMembers(before, last);
      PermittedStay(before, allowed);
      hide Permits;
    }
  }

  lemma {:induction false} RepeatsDropped(items: seq<Option<string>>, more: seq<Option<string>>,
                                          allowed: Option<seq<string>>)
    requires forall id: string :: Some(id) in more && Permits(allowed, id) ==> Some(id) in items
    ensures FirstPermitted(items + more, allowed) == FirstPermitted(items, allowed)
    decreases |more|
  {
    if more == [] {
      assert items + more == items;
    } else {
      var before, last := more[..|more| - 1], more[|more| - 1];
      assert more == before + [last] && (items + more)[..|items + more| - 1] == items + before;
      hide Permits;
      RepeatsDropped(items, before, allowed);
    }
  }

  /** The providers that serve the preferred model, then those of the routes. */
  function Visits(shell: Shell, strategy: Strategy, request: Request): seq<string> {
    var routes := RoutesOf(shell, strategy);
    PreferredProviders(shell.routing, EffectiveModel(routes, request.preferredModel), request.allowedRuntimeKinds)
    + ProviderIds(routes)
  }

  /** The search visits them in this order, each once: the primary, the fallback and the policy add nothing. */
  lemma StrategyOrder(shell: Shell, strategy: Strategy, request: Request)
    ensures OrderedIds(shell.routing, StrategyInput(shell, strategy, request)) ==
            Unique(Visits(shell, strategy, request))
  {
    var routes := RoutesOf(shell, strategy);
    var input := StrategyInput(shell, strategy, request);
    var preferred := PreferredProviders(
      shell.routing, EffectiveModel(routes, request.preferredModel), request.allowedRuntimeKinds);
    var policy := PolicyOf(shell.routing, input);
    var more := [input.primary, input.fallback]
                + AllSome(if policy.Some? then policy.value.orderedProviderProfileIds else []);
    PrimaryAmongRoutes(shell, strategy);
    UniqueMembers(ProviderIds(routes) + preferred);
    UniqueMembers(preferred + ProviderIds(routes));
    UniqueDistinct(preferred + ProviderIds(routes));
    var allowed, ids := Unique(ProviderIds(routes) + preferred), Unique(preferred + ProviderIds(routes));
    assert input.allowedProviderIds == Some(allowed);
    assert Visits(shell, strategy, request) == preferred + ProviderIds(routes);
    assert RawIds(shell.routing, input) == AllSome(ids) + more;
    assert OrderedIds(shell.routing, input) == FirstPermitted(AllSome(ids) + more, Some(allowed));
    hide *;
    forall id: string ensures Permits(Some(allowed), id) <==> Some(id) in AllSome(ids) {
      AllSomeMembers(ids, id);
      PermitsList(allowed, id);
    }
    assert forall id <- ids :: Permits(Some(allowed), id) by {
      forall id: string | id in ids ensures Permits(Some(allowed), id) {
        PermitsList(allowed, id);
      }
    }
    RepeatsDropped(AllSome(ids), more, Some(allowed));
    PermittedStay(ids, Some(allowed));
  }

  /** The search visits exactly the strategy's providers and those that serve the preferred model. */
  lemma StrategyVisits(shell: Shell, strategy: Strategy, request: Request)
    ensures var routes := RoutesOf(shell, strategy);
            var preferred := PreferredProviders(
              shell.routing, EffectiveModel(routes, request.preferredModel), request.allowedRuntimeKinds);
            forall id: string :: id in OrderedIds(shell.routing, StrategyInput(shell, strategy, request)) <==>
              id in ProviderIds(routes) || id in preferred
  {
    StrategyOrder(shell, strategy, request);
    UniqueMembers(Visits(shell, strategy, request));
    hide OrderedIds, StrategyInput, Unique, RoutesOf, PreferredProviders, EffectiveModel;
  }

  lemma PermitsList(list: seq<string>, id: string)
    requires list != []
    ensures Permits(Some(list), id) <==> id in list
  {
  }

  lemma PrimaryAmongRoutes(shell: Shell, strategy: Strategy)
    ensures RoutesOf(shell, strategy) != [] && ProviderIds(RoutesOf(shell, strategy)) != []
  {
    var expanded := ExpandRoutes(shell, strategy);
    var active := if shell.activeCostPosture.Some? then shell.activeCostPosture.value else Subscription;
    ReorderIsStableSort(expanded, active);
    assert strategy.primaryRoute in multiset(expanded);
    assert strategy.primaryRoute in multiset(RoutesOf(shell, strategy));
  }

  /** The routes, models and providers of a strategy are the same under every posture, up to order. */
  lemma PostureKeepsMembers(shell: Shell, strategy: Strategy, posture: Option<Posture>)
    ensures var a, b := RoutesOf(shell, strategy), RoutesOf(shell.(activeCostPosture := posture), strategy);
            && (forall m: string :: m in Models(a) <==> m in Models(b))
            && (forall id: string :: id in ProviderIds(a) <==> id in ProviderIds(b))
  {
    var other := shell.(activeCostPosture := posture);
    var a, b := RoutesOf(shell, strategy), RoutesOf(other, strategy);
    var expanded := ExpandRoutes(shell, strategy);
    assert ExpandRoutes(other, strategy) == expanded;
    var active := if shell.activeCostPosture.Some? then shell.activeCostPosture.value else Subscription;
    ReorderIsStableSort(expanded, active);
    ReorderIsStableSort(expanded, if posture.Some? then posture.value else Subscription);
    assert multiset(a) == multiset(b);
    hide *;
    SameMembers(a, b);
    SameMembers(b, a);
  }

  lemma SameMembers(a: seq<Route>, b: seq<Route>)
    requires multiset(a) == multiset(b)
    ensures forall m: string :: m in Models(a) ==> m in Models(b)
    ensures forall id: string :: id in ProviderIds(a) ==> id in ProviderIds(b)
  {
    forall i: nat | i < |a| ensures a[i].model in Models(b) && a[i].providerId in ProviderIds(b) {
      assert a[i] in multiset(a);
      assert a[i] in b;
      var j: nat :| j < |b| && b[j] == a[i];
      assert Models(b)[j] == a[i].model && ProviderIds(b)[j] == a[i].providerId;
    }
    forall m: string | m in Models(a) ensures m in Models(b) {
      var i: nat :| i < |Models(a)| && Models(a)[i] == m;
      assert a[i].model in Models(b);
    }
    forall id: string | id in ProviderIds(a) ensures id in ProviderIds(b) {
      var i: nat :| i < |ProviderIds(a)| && ProviderIds(a)[i] == id;
      assert a[i].providerId in ProviderIds(b);
    }
  }

  /** The models an input asks for, as a set: the strategy's. */
  lemma StrategyModels(shell: Shell, strategy: Strategy, request: Request)
    ensures var input := StrategyInput(shell, strategy, request);
            AsksForModels(input) &&
            forall m: string :: m in input.preferredModels.value <==> m in Models(RoutesOf(shell, strategy))
  {
    var routes := RoutesOf(shell, strategy);
    PrimaryAmongRoutes(shell, strategy);
    UniqueMembers(Models(routes));
    assert Models(routes)[0] in Models(routes);
    hide RoutesOf;
    hide Unique;
  }

  lemma SameTiers(shell: Shell, other: Shell, strategy: Strategy, a: Request, b: Request)
    requires shell.routing == other.routing
    ensures AuthTiers(shell.routing, StrategyInput(shell, strategy, a)) ==
            AuthTiers(shell.routing, StrategyInput(other, strategy, b))
  {
    StrategyPolicy(shell, strategy, a);
    StrategyPolicy(other, strategy, b);
    hide StrategyInput;
    TiersAgree(shell.routing, StrategyInput(shell, strategy, a), StrategyInput(other, strategy, b));
  }

  lemma StrategyPolicy(shell: Shell, strategy: Strategy, request: Request)
    ensures var input := StrategyInput(shell, strategy, request);
            input.fallbackPolicyId == Some("core-default")
            && input.allowExperimentalAuth == None && input.allowedAuthTiers == None
  {
    hide RoutesOf;
    hide Unique;
    hide EffectiveModel;
    hide PreferredProviders;
  }

  lemma TiersAgree(state: State, x: Input, y: Input)
    requires x.fallbackPolicyId == y.fallbackPolicyId && x.allowExperimentalAuth == y.allowExperimentalAuth
    requires x.allowedAuthTiers == y.allowedAuthTiers
    ensures AuthTiers(state, x) == AuthTiers(state, y)
  {
    hide FindPolicy;
  }

  /** Whether a route is found does not depend on the active cost posture. */
  lemma PostureFailOpen(shell: Shell, strategy: Strategy, request: Request, posture: Option<Posture>)
    ensures Viable(shell.routing, StrategyInput(shell, strategy, request)) <==>
            Viable(shell.routing, StrategyInput(shell.(activeCostPosture := posture), strategy, request))
  {
    var other := shell.(activeCostPosture := posture);
    PostureWidens(shell, strategy, request, posture);
    assert other.(activeCostPosture := shell.activeCostPosture) == shell;
    PostureWidens(other, strategy, request, shell.activeCostPosture);
    hide *;
    var a, b := StrategyInput(shell, strategy, request), StrategyInput(other, strategy, request);
    if Viable(shell.routing, a) {
      WidenedViable(shell.routing, a, b);
    }
    if Viable(shell.routing, b) {
      WidenedViable(shell.routing, b, a);
    }
  }

  lemma PostureWidens(shell: Shell, strategy: Strategy, request: Request, posture: Option<Posture>)
    ensures Widens(shell.routing, StrategyInput(shell, strategy, request),
                   StrategyInput(shell.(activeCostPosture := posture), strategy, request))
  {
    var other := shell.(activeCostPosture := posture);
    var a, b := StrategyInput(shell, strategy, request), StrategyInput(other, strategy, request);
    PostureKeepsMembers(shell, strategy, posture);
    StrategyVisits(shell, strategy, request);
    StrategyVisits(other, strategy, request);
    StrategyModels(shell, strategy, request);
    StrategyModels(other, strategy, request);
    SameTiers(shell, other, strategy, request, request);
    var routes, others := RoutesOf(shell, strategy), RoutesOf(other, strategy);
    assert EffectiveModel(routes, request.preferredModel) == EffectiveModel(others, request.preferredModel);
    assert a.allowedRuntimeKinds == b.allowedRuntimeKinds && a.allowedAdapterIds == b.allowedAdapterIds;
    hide StrategyInput;
    hide OrderedIds;
    hide AuthTiers;
    hide RoutesOf;
    hide ProviderIds;
    hide Models;
    hide EffectiveModel;
    hide PreferredProviders;
    hide AsksForModels;
  }

  /** Asking for a preferred model never turns a route that is found into one that is not. */
  lemma PreferredModelKeepsViable(shell: Shell, strategy: Strategy, request: Request)
    requires Viable(shell.routing, StrategyInput(shell, strategy, request.(preferredModel := None)))
    ensures Viable(shell.routing, StrategyInput(shell, strategy, request))
  {
    var plain := request.(preferredModel := None);
    var a, b := StrategyInput(shell, strategy, plain), StrategyInput(shell, strategy, request);
    StrategyVisits(shell, strategy, plain);
    StrategyVisits(shell, strategy, request);
    StrategyModels(shell, strategy, plain);
    StrategyModels(shell, strategy, request);
    SameTiers(shell, shell, strategy, plain, request);
    assert a.allowedRuntimeKinds == b.allowedRuntimeKinds && a.allowedAdapterIds == b.allowedAdapterIds;
    assert Widens(shell.routing, a, b) by {
      hide StrategyInput;
      hide OrderedIds;
      hide AuthTiers;
      hide RoutesOf;
      hide ProviderIds;
      hide Models;
      hide PreferredProviders;
      hide AsksForModels;
    }
    hide *;
    WidenedViable(shell.routing, a, b);
  }

  /** A preferred model that is none of the strategy's is ignored altogether. */
  lemma UnknownModelIgnored(shell: Shell, strategy: Strategy, request: Request, model: string)
    requires model !in Models(RoutesOf(shell, strategy))
    ensures StrategyInput(shell, strategy, request.(preferredModel := Some(model))) ==
            StrategyInput(shell, strategy, request.(preferredModel := None))
  {
  }

  // ----- the preferred model -----

  lemma {:induction false} ChainIsFirst(chains: seq<Chain>, id: string) returns (i: nat)
    ensures i <= |chains| && forall j: nat | j < i :: chains[j].id != id
    ensures if i == |chains| then FindChain(chains, id).None?
            else chains[i].id == id && FindChain(chains, id) == Some(chains[i])
    decreases |chains|
  {
    i := 0;
    if chains != [] && chains[0].id != id {
      i := ChainIsFirst(chains[1..], id);
      assert forall j: nat | 0 < j < i + 1 :: chains[j] == chains[1..][j - 1];
      i := i + 1;
    }
  }

  /** The strategy's chain: the first one of its id. */
  ghost predicate ChainAt(shell: Shell, strategy: Strategy, c: nat) {
    && c < |shell.fallbackChains| && shell.fallbackChains[c].id == strategy.fallbackChainId
    && forall b: nat | b < c :: shell.fallbackChains[b].id != strategy.fallbackChainId
  }

  /** The route is the primary, or on the strategy's chain. */
  ghost predicate OfStrategy(shell: Shell, strategy: Strategy, route: Route) {
    route == strategy.primaryRoute ||
    exists c: nat :: ChainAt(shell, strategy, c) &&
                     (route in shell.fallbackChains[c].orderedRoutes
                      || shell.fallbackChains[c].lastResort == Some(route))
  }

  lemma ExpandedAre(shell: Shell, strategy: Strategy, route: Route)
    ensures route in ExpandRoutes(shell, strategy) <==> OfStrategy(shell, strategy, route)
  {
    var c := ChainIsFirst(shell.fallbackChains, strategy.fallbackChainId);
    hide FindChain;
    if c < |shell.fallbackChains| {
      assert ChainAt(shell, strategy, c);
    }
    assert forall d: nat :: ChainAt(shell, strategy, d) ==> d == c;
    hide ChainAt;
  }

  /** The primary comes first, then the chain's routes in their order, then its last resort. */
  lemma ExpandedInOrder(shell: Shell, strategy: Strategy, c: nat)
    requires ChainAt(shell, strategy, c)
    ensures var routes, chain := ExpandRoutes(shell, strategy), shell.fallbackChains[c];
            var n := |chain.orderedRoutes|;
            && |routes| == n + (if chain.lastResort.Some? then 2 else 1) && routes[0] == strategy.primaryRoute
            && (forall j: nat | j < n :: routes[j + 1] == chain.orderedRoutes[j])
            && (chain.lastResort.Some? ==> routes[n + 1] == chain.lastResort.value)
  {
    var first := ChainIsFirst(shell.fallbackChains, strategy.fallbackChainId);
    assert first == c;
    hide FindChain, ChainAt;
  }

  lemma RoutesAre(shell: Shell, strategy: Strategy)
    ensures forall route: Route :: route in RoutesOf(shell, strategy) <==> OfStrategy(shell, strategy, route)
  {
    var expanded := ExpandRoutes(shell, strategy);
    var active := if shell.activeCostPosture.Some? then shell.activeCostPosture.value else Subscription;
    ReorderIsStableSort(expanded, active);
    var routes := RoutesOf(shell, strategy);
    assert multiset(routes) == multiset(expanded);
    hide *;
    forall route: Route ensures route in routes <==> OfStrategy(shell, strategy, route) {
      ExpandedAre(shell, strategy, route);
      assert route in routes <==> route in multiset(routes);
      assert route in expanded <==> route in multiset(expanded);
    }
  }

  /** The request names one of the strategy's models. */
  ghost predicate Prefers(shell: Shell, strategy: Strategy, request: Request, model: string) {
    model != "" && request.preferredModel == Some(model) &&
    exists route: Route :: OfStrategy(shell, strategy, route) && route.model == model
  }

  lemma EffectiveIs(shell: Shell, strategy: Strategy, request: Request, model: string)
    ensures EffectiveModel(RoutesOf(shell, strategy), request.preferredModel) == Some(model) <==>
            Prefers(shell, strategy, request, model)
  {
    RoutesAre(shell, strategy);
    var routes := RoutesOf(shell, strategy);
    hide RoutesOf, OfStrategy;
    if model in Models(routes) {
      var i: nat :| i < |routes| && Models(routes)[i] == model;
      assert routes[i] in routes && routes[i].model == model;
    }
    if Prefers(shell, strategy, request, model) {
      var route :| OfStrategy(shell, strategy, route) && route.model == model;
      var i: nat :| i < |routes| && routes[i] == route;
      assert Models(routes)[i] == model;
    }
  }

  /** The node runs the preferred model when it supports it, and otherwise the first of the routes' models that it
      does. */
  ghost predicate RunsPreferred(shell: Shell, strategy: Strategy, request: Request, node: Node, model: string) {
    model != "" && model in node.supportedModels &&
    if exists m <- node.supportedModels :: Prefers(shell, strategy, request, m) then
      Prefers(shell, strategy, request, model)
    else
      FirstOfRoutes(RoutesOf(shell, strategy), node.supportedModels, model)
  }

  lemma FirstOfUnique(ids: seq<string>, u: nat, supported: seq<string>) returns (j: nat)
    requires u < |Unique(ids)| && forall e: nat | e < u :: Unique(ids)[e] == "" || Unique(ids)[e] !in supported
    ensures j < |ids| && ids[j] == Unique(ids)[u]
    ensures forall e: nat | e < j :: ids[e] == "" || ids[e] !in supported
  {
    var all := Unique(ids);
    UniqueMembers(ids);
    assert all[u] in all;
    j := IndexOf(ids, all[u]);
    IndexIsFirst(ids, all[u]);
    hide Unique, IndexOf;
    forall e: nat | e < j ensures ids[e] == "" || ids[e] !in supported {
      assert ids[e] in ids && ids[e] in all;
      var v: nat :| v < |all| && all[v] == ids[e];
      if u < v {
        UniqueOrder(ids, u, v);
      }
    }
  }

  ghost predicate FirstOfRoutes(routes: seq<Route>, supported: seq<string>, model: string) {
    exists j: nat :: j < |routes| && routes[j].model == model &&
                     forall e: nat | e < j :: routes[e].model == "" || routes[e].model !in supported
  }

  lemma FirstAsked(
    routes: seq<Route>, effective: Option<string>, supported: seq<string>, asked: seq<string>, j: nat)
    requires asked == (if effective.Some? then [effective.value] else []) + Unique(Models(routes))
    requires j < |asked| && forall e: nat | e < j :: asked[e] == "" || asked[e] !in supported
    requires effective.Some? ==> effective.value != ""
    ensures if effective.Some? && (effective.value in supported || j == 0) then asked[j] == effective.value
            else FirstOfRoutes(routes, supported, asked[j])
  {
    var models := Unique(Models(routes));
    hide Unique;
    if effective.Some? && (effective.value in supported || j == 0) {
      assert asked[0] == effective.value;
    } else {
      var shift: nat := if effective.Some? then 1 else 0;
      forall e: nat | e < |models| ensures models[e] == asked[e + shift] {
      }
      var r := FirstOfUnique(Models(routes), j - shift, supported);
      assert forall e: nat | e < |routes| :: Models(routes)[e] == routes[e].model;
    }
  }

  /** The model of a pair of the search. */
  lemma PreferredRuns(shell: Shell, strategy: Strategy, request: Request, provider: Provider, node: Node, model: string)
    requires Runs(StrategyInput(shell, strategy, request), provider, node, model)
    ensures RunsPreferred(shell, strategy, request, node, model)
  {
    var input := StrategyInput(shell, strategy, request);
    var routes := RoutesOf(shell, strategy);
    var effective := EffectiveModel(routes, request.preferredModel);
    StrategyModels(shell, strategy, request);
    var asked := (if effective.Some? then [effective.value] else []) + Unique(Models(routes));
    assert [] + Unique(Models(routes)) == Unique(Models(routes));
    assert input.preferredModels == Some(asked) && asked != [];
    assert effective.Some? ==> effective.value != "";
    hide StrategyInput, RoutesOf, EffectiveModel, Unique;
    var j: nat :| j < |asked| && asked[j] == model && model in node.supportedModels &&
                  forall e: nat | e < j :: asked[e] == "" || asked[e] !in node.supportedModels;
    assert forall m: string :: effective == Some(m) <==> Prefers(shell, strategy, request, m) by {
      forall m: string ensures effective == Some(m) <==> Prefers(shell, strategy, request, m) {
        EffectiveIs(shell, strategy, request, m);
      }
    }
    FirstAsked(routes, effective, node.supportedModels, asked, j);
    hide Prefers, Models;
    if effective.Some? && j == 0 {
      assert asked[0] == effective.value;
    }
  }

  /** The provider allows the model and the node runs it: one of the provider's, usable, of a permitted kind, with an
      address to call if the user owns it, and with an adapter for the two. */
  ghost predicate Offers(state: State, provider: Provider, node: Node, model: string, kinds: Option<seq<string>>) {
    && node.providerProfileId == provider.id && model in provider.allowedModels && model in node.supportedModels
    && !provider.missing && node.health != Unavailable && (node.health == Deployable ==> node.deployableOnDemand)
    && (kinds in {None, Some([])} || node.kind in kinds.value)
    && (node.kind == "remote-user-owned" ==> |node.endpoint| >= 4 && node.endpoint[..4] == "http")
    && exists adapter <- state.executionAdapters :: Supports(adapter, provider, node)
  }

  lemma OffersExactly(state: State, provider: Provider, node: Node, model: string, kinds: Option<seq<string>>)
    ensures CanServe(state, provider, node, model, kinds) <==> Offers(state, provider, node, model, kinds)
  {
    var i := AdapterIsFirst(state.executionAdapters, provider, node);
    hide AdapterFor, Supports;
    if exists adapter <- state.executionAdapters :: Supports(adapter, provider, node) {
      var adapter :| adapter in state.executionAdapters && Supports(adapter, provider, node);
      var j: nat :| j < |state.executionAdapters| && state.executionAdapters[j] == adapter;
      assert i <= j;
    }
    match node.health {
      case Ready => assert node.health != Unavailable && node.health != Deployable;
      case Degraded => assert node.health != Unavailable && node.health != Deployable;
      case Deployable => assert node.health == Deployable;
      case Unavailable => assert node.health == Unavailable;
    }
  }

  /** The p-th provider can serve the preferred model from some node. */
  ghost predicate ServesAt(shell: Shell, strategy: Strategy, request: Request, p: nat) {
    p < |shell.routing.providers| &&
    exists model: string, k: nat ::
      Prefers(shell, strategy, request, model) && k < |shell.routing.runtimeNodes| &&
      Offers(shell.routing, shell.routing.providers[p], shell.routing.runtimeNodes[k], model,
             request.allowedRuntimeKinds)
  }

  ghost predicate Serves(shell: Shell, strategy: Strategy, request: Request, id: string) {
    exists p: nat :: ServesAt(shell, strategy, request, p) && shell.routing.providers[p].id == id
  }

  lemma {:induction false} ServingPicks(
    state: State, providers: seq<Provider>, model: string, kinds: Option<seq<string>>) returns (at: seq<nat>)
    ensures var ids := ServingProviders(state, providers, model, kinds);
            && |at| == |ids| && (forall i: nat, j: nat | i < j < |at| :: at[i] < at[j])
            && (forall i: nat | i < |at| :: at[i] < |providers| && providers[at[i]].id == ids[i])
    ensures forall p: nat :: p in at <==>
              p < |providers| && exists node <- state.runtimeNodes :: CanServe(state, providers[p], node, model, kinds)
    decreases |providers|
  {
    hide CanServe;
    at := [];
    if providers != [] {
      var before, p: nat := providers[..|providers| - 1], |providers| - 1;
      var earlier := ServingPicks(state, before, model, kinds);
      assert forall q: nat | q < p :: before[q] == providers[q];
      assert forall i: nat | i < |earlier| :: earlier[i] in earlier;
      at := earlier + if exists node <- state.runtimeNodes :: CanServe(state, providers[p], node, model, kinds) then [p]
                      else [];
    }
  }

  lemma SomeNodeOffers(state: State, provider: Provider, model: string, kinds: Option<seq<string>>)
    ensures (exists node <- state.runtimeNodes :: CanServe(state, provider, node, model, kinds)) <==>
            exists k: nat :: k < |state.runtimeNodes| && Offers(state, provider, state.runtimeNodes[k], model, kinds)
  {
    forall node ensures CanServe(state, provider, node, model, kinds) <==>
                        Offers(state, provider, node, model, kinds)
    {
      OffersExactly(state, provider, node, model, kinds);
    }
    hide CanServe, Offers;
    if node :| node in state.runtimeNodes && Offers(state, provider, node, model, kinds) {
      var k: nat :| k < |state.runtimeNodes| && state.runtimeNodes[k] == node;
    }
  }

  /** The ids of the serving providers, at their positions. */
  ghost predicate Lists(shell: Shell, strategy: Strategy, request: Request, serving: seq<string>, at: seq<nat>) {
    && |at| == |serving| && (forall i: nat, j: nat | i < j < |at| :: at[i] < at[j])
    && (forall i: nat | i < |at| ::
          at[i] < |shell.routing.providers| && shell.routing.providers[at[i]].id == serving[i])
    && (forall p: nat :: p in at <==> ServesAt(shell, strategy, request, p))
  }

  lemma PreferredProvidersAre(shell: Shell, strategy: Strategy, request: Request) returns (at: seq<nat>)
    ensures var effective := EffectiveModel(RoutesOf(shell, strategy), request.preferredModel);
            var ids := PreferredProviders(shell.routing, effective, request.allowedRuntimeKinds);
            Lists(shell, strategy, request, ids, at)
  {
    var state, kinds := shell.routing, request.allowedRuntimeKinds;
    var effective := EffectiveModel(RoutesOf(shell, strategy), request.preferredModel);
    forall m: string ensures effective == Some(m) <==> Prefers(shell, strategy, request, m) {
      EffectiveIs(shell, strategy, request, m);
    }
    assert effective.Some? ==> effective.value != "";
    hide RoutesOf, EffectiveModel, Prefers, Offers, CanServe;
    at := [];
    if effective.Some? {
      var m := effective.value;
      at := ServingPicks(state, state.providers, m, kinds);
      hide ServingProviders;
      forall p: nat ensures p in at <==> ServesAt(shell, strategy, request, p) {
        if p < |state.providers| {
          SomeNodeOffers(state, state.providers[p], m, kinds);
        }
        assert Prefers(shell, strategy, request, m);
      }
    }
  }

  /** The provider a comes before b: providers that serve the preferred model come first, in the order they are
      kept in, and the others follow in the order of the routes. */
  ghost predicate InTurn(shell: Shell, strategy: Strategy, request: Request, a: string, b: string) {
    var providers := shell.routing.providers;
    if Serves(shell, strategy, request, b) then
      forall q: nat | ServesAt(shell, strategy, request, q) && providers[q].id == b ::
        exists p: nat :: p < q && ServesAt(shell, strategy, request, p) && providers[p].id == a
    else Serves(shell, strategy, request, a) || Precedes(ProviderIds(RoutesOf(shell, strategy)), a, b)
  }

  lemma ServesIsListed(
    shell: Shell, strategy: Strategy, request: Request, serving: seq<string>, at: seq<nat>, id: string)
    requires Lists(shell, strategy, request, serving, at)
    ensures Serves(shell, strategy, request, id) <==> id in serving
  {
    hide ServesAt;
    if id in serving {
      var x: nat :| x < |serving| && serving[x] == id;
      assert at[x] in at;
    }
    if p: nat :| ServesAt(shell, strategy, request, p) && shell.routing.providers[p].id == id {
      var x: nat :| x < |at| && at[x] == p;
      assert serving[x] == id;
    }
  }

  lemma ListedInTurn(
    shell: Shell, strategy: Strategy, request: Request, serving: seq<string>, at: seq<nat>, a: string, b: string)
    requires Lists(shell, strategy, request, serving, at) && Precedes(serving, a, b)
    ensures forall q: nat | ServesAt(shell, strategy, request, q) && shell.routing.providers[q].id == b ::
              exists p: nat :: p < q && ServesAt(shell, strategy, request, p) && shell.routing.providers[p].id == a
  {
    hide ServesAt;
    forall q: nat | ServesAt(shell, strategy, request, q) && shell.routing.providers[q].id == b
      ensures exists p: nat :: p < q && ServesAt(shell, strategy, request, p) && shell.routing.providers[p].id == a
    {
      var y: nat :| y < |at| && at[y] == q;
      assert serving[y] == b;
      var x: nat :| x < y && serving[x] == a;
      assert at[x] in at;
    }
  }

  /** Each provider that can serve the preferred model is visited before each one that cannot. */
  lemma VisitedInTurn(shell: Shell, strategy: Strategy, request: Request, i: nat, j: nat)
    requires i < j < |OrderedIds(shell.routing, StrategyInput(shell, strategy, request))|
    ensures var ids := OrderedIds(shell.routing, StrategyInput(shell, strategy, request));
            InTurn(shell, strategy, request, ids[i], ids[j])
  {
    var routes := RoutesOf(shell, strategy);
    var serving := PreferredProviders(
      shell.routing, EffectiveModel(routes, request.preferredModel), request.allowedRuntimeKinds);
    StrategyOrder(shell, strategy, request);
    UniqueOrder(Visits(shell, strategy, request), i, j);
    var ids := Unique(Visits(shell, strategy, request));
    var a, b := ids[i], ids[j];
    var at := PreferredProvidersAre(shell, strategy, request);
    assert Lists(shell, strategy, request, serving, at);
    assert Precedes(serving + ProviderIds(routes), a, b);
    assert ids == OrderedIds(shell.routing, StrategyInput(shell, strategy, request));
    hide Unique, Visits, OrderedIds, StrategyInput, PreferredProviders, EffectiveModel, RoutesOf, ProviderIds;
    hide ServesAt, Serves, Lists, Precedes;
    ServesIsListed(shell, strategy, request, serving, at, a);
    ServesIsListed(shell, strategy, request, serving, at, b);
    if b in serving {
      PrecedesFirst(serving, ProviderIds(routes), a, b);
      ListedInTurn(shell, strategy, request, serving, at, a, b);
    } else if a !in serving {
      assert serving + ProviderIds(routes) == serving + ProviderIds(routes) + [];
      PrecedesWithin(serving, ProviderIds(routes), [], a, b);
    }
  }

  /** The p-th provider, the first of its id and with a credential, serves the preferred model from the k-th node
      within the policy's tiers. */
  ghost predicate Servable(shell: Shell, strategy: Strategy, request: Request, p: nat, k: nat) {
    var state, input := shell.routing, StrategyInput(shell, strategy, request);
    && p < |state.providers| && k < |state.runtimeNodes|
    && (exists model: string :: Prefers(shell, strategy, request, model) &&
          Offers(state, state.providers[p], state.runtimeNodes[k], model, request.allowedRuntimeKinds))
    && (forall q: nat | q < p :: state.providers[q].id != state.providers[p].id)
    && !state.providers[p].credentialMissing && state.providers[p].authTier in AuthTiers(state, input)
    && state.runtimeNodes[k].authTier in AuthTiers(state, input)
  }

  lemma ServedIsVisited(shell: Shell, strategy: Strategy, request: Request, p: nat) returns (i: nat)
    requires ServesAt(shell, strategy, request, p)
    ensures var ids := OrderedIds(shell.routing, StrategyInput(shell, strategy, request));
            i < |ids| && ids[i] == shell.routing.providers[p].id
  {
    var at := PreferredProvidersAre(shell, strategy, request);
    StrategyVisits(shell, strategy, request);
    var serving := PreferredProviders(
      shell.routing, EffectiveModel(RoutesOf(shell, strategy), request.preferredModel), request.allowedRuntimeKinds);
    var ids := OrderedIds(shell.routing, StrategyInput(shell, strategy, request));
    hide ServesAt, PreferredProviders, EffectiveModel, RoutesOf, OrderedIds, StrategyInput, ProviderIds;
    var x: nat :| x < |at| && at[x] == p;
    assert serving[x] in serving;
    i :| i < |ids| && ids[i] == serving[x];
  }

  lemma ServeAdmits(state: State, input: Input, provider: Provider, node: Node, model: string)
    requires CanServe(state, provider, node, model, input.allowedRuntimeKinds) && input.allowedAdapterIds.None?
    requires AsksForModels(input) && model != "" && model in input.preferredModels.value
    requires node.authTier in AuthTiers(state, input)
    ensures Admissible(state, input, provider, node)
  {
    ModelForExists(input, provider, node);
    hide AdapterFor, ModelFor, AuthTiers;
  }

  lemma PreferredIsAsked(shell: Shell, strategy: Strategy, request: Request, model: string)
    requires Prefers(shell, strategy, request, model)
    ensures var input := StrategyInput(shell, strategy, request);
            && AsksForModels(input) && model in input.preferredModels.value
            && input.allowedRuntimeKinds == request.allowedRuntimeKinds && input.allowedAdapterIds.None?
  {
    StrategyModels(shell, strategy, request);
    EffectiveIs(shell, strategy, request, model);
    assert model in Models(RoutesOf(shell, strategy));
    hide RoutesOf, EffectiveModel, Prefers, Models;
  }

  lemma ServableIsAdmissible(shell: Shell, strategy: Strategy, request: Request, p: nat, k: nat) returns (i: nat)
    requires Servable(shell, strategy, request, p, k)
    ensures var input := StrategyInput(shell, strategy, request);
            && AdmissibleAt(shell.routing, input, i, k) && i < |OrderedIds(shell.routing, input)|
            && OrderedIds(shell.routing, input)[i] == shell.routing.providers[p].id
  {
    var state, input := shell.routing, StrategyInput(shell, strategy, request);
    var model :| Prefers(shell, strategy, request, model) &&
      Offers(state, state.providers[p], state.runtimeNodes[k], model, request.allowedRuntimeKinds);
    OffersExactly(state, state.providers[p], state.runtimeNodes[k], model, request.allowedRuntimeKinds);
    assert model != "" && !state.providers[p].missing;
    i := ServedIsVisited(shell, strategy, request, p);
    PreferredIsAsked(shell, strategy, request, model);
    hide StrategyInput, OrderedIds, AuthTiers, CanServe, Offers, Prefers, AsksForModels, Admissible;
    ServeAdmits(state, input, state.providers[p], state.runtimeNodes[k], model);
    var q := ProviderIsFirst(state.providers, state.providers[p].id);
    assert q == p;
    hide FindProvider;
  }

  /** When a provider can serve the preferred model in policy, the one that is chosen can serve it too. */
  lemma ServingProviderChosen(shell: Shell, strategy: Strategy, request: Request, p: nat, k: nat, i: nat, m: nat)
    requires Servable(shell, strategy, request, p, k)
    requires Least(shell.routing, StrategyInput(shell, strategy, request), i, m)
    ensures var ids := OrderedIds(shell.routing, StrategyInput(shell, strategy, request));
            i < |ids| && Serves(shell, strategy, request, ids[i])
  {
    var input := StrategyInput(shell, strategy, request);
    var ids := OrderedIds(shell.routing, input);
    var j := ServableIsAdmissible(shell, strategy, request, p, k);
    assert AdmissibleAt(shell.routing, input, i, m) && i <= j;
    assert ServesAt(shell, strategy, request, p);
    if i < j {
      VisitedInTurn(shell, strategy, request, i, j);
    }
    hide AdmissibleAt, OrderedIds, StrategyInput, ServesAt, Servable, RoutesOf;
    assert Serves(shell, strategy, request, ids[j]);
  }

  // ----- the order of the nodes -----

  function NodeRefs(routes: seq<Route>): seq<Option<string>> {
    seq(|routes|, i requires 0 <= i < |routes| => routes[i].nodeId)
  }

  lemma {:induction false} NodeIdsAre(routes: seq<Route>, x: string, y: string)
    ensures x in NodeIds(routes) <==> Some(x) in NodeRefs(routes)
    ensures Precedes(NodeIds(routes), x, y) <==> Precedes(NodeRefs(routes), Some(x), Some(y))
    decreases |routes|
  {
    if routes != [] {
      var before, last := routes[..|routes| - 1], routes[|routes| - 1];
      NodeIdsAre(before, x, y);
      assert NodeRefs(routes) == NodeRefs(before) + [last.nodeId];
      var more := if last.nodeId.Some? then [last.nodeId.value] else [];
      assert NodeIds(routes) == NodeIds(before) + more;
      hide NodeIds, NodeRefs, Precedes;
      assert NodeIds(before) + [] == NodeIds(before);
      PrecedesSnoc(NodeRefs(before), last.nodeId, Some(x), Some(y));
      if last.nodeId.Some? {
        PrecedesSnoc(NodeIds(before), last.nodeId.value, x, y);
      }
    }
  }

  lemma PrecedesSnoc<T>(list: seq<T>, last: T, a: T, b: T)
    ensures Precedes(list + [last], a, b) <==> Precedes(list, a, b) && (last == b ==> a in list)
  {
    var all := list + [last];
    if Precedes(all, a, b) {
      assert all == [] + list + [last];
      PrecedesWithin([], list, [last], a, b);
      assert all[|list|] == last;
      if last == b {
        var x: nat :| x < |list| && all[x] == a;
        assert list[x] == a;
      }
    }
    if Precedes(list, a, b) && (last == b ==> a in list) {
      forall y: nat | y < |all| && all[y] == b ensures exists x: nat :: x < y && all[x] == a {
        if y < |list| {
          var x: nat :| x < y && list[x] == a;
          assert all[x] == a;
        } else {
          var x: nat :| x < |list| && list[x] == a;
          assert all[x] == a;
        }
      }
    }
  }

  lemma PrecedesAntisymmetric(list: seq<string>, a: string, b: string)
    requires a in list && Precedes(list, a, b)
    ensures !Precedes(list, b, a)
  {
    IndexIsFirst(list, a);
    IndexIsFirst(list, b);
    hide IndexOf;
    assert IndexOf(list, a) < |list|;
    if Precedes(list, b, a) {
      var x: nat :| x < IndexOf(list, a) && list[x] == b;
      assert IndexOf(list, b) <= x;
      assert IndexOf(list, b) < |list|;
    }
  }

  lemma UniquePrecedes(ids: seq<string>, a: string, b: string)
    requires a != b && a in ids
    ensures Precedes(Unique(ids), a, b) <==> Precedes(ids, a, b)
  {
    UniqueMembers(ids);
    var all := Unique(ids);
    var i: nat :| i < |all| && all[i] == a;
    if b in ids {
      var j: nat :| j < |all| && all[j] == b;
      UniqueDistinct(ids);
      if i < j {
        UniqueOrder(ids, i, j);
      } else {
        UniqueOrder(ids, j, i);
        PrecedesAntisymmetric(ids, b, a);
      }
      hide Unique;
      assert forall y: nat | y < |all| && all[y] == b :: y == j;
      assert forall x: nat | x < |all| && all[x] == a :: x == i;
    }
  }

  /** The value x is named, and before each naming of y. */
  ghost predicate NamedBefore<T>(list: seq<T>, x: T, y: T) {
    x in list && Precedes(list, x, y)
  }

  lemma RankIsNaming(list: seq<string>, x: string, y: string)
    requires |list| <= MAX_SAFE_INTEGER
    ensures Rank(Some(list), x) < Rank(Some(list), y) <==> x != y && NamedBefore(list, x, y)
    ensures Rank(Some(list), x) == Rank(Some(list), y) <==> x == y || (x !in list && y !in list)
  {
    RankOrder(list, x, y);
  }

  lemma NodeRankIsNaming(shell: Shell, strategy: Strategy, request: Request, x: string, y: string)
    requires |RoutesOf(shell, strategy)| <= MAX_SAFE_INTEGER
    ensures var refs := NodeRefs(RoutesOf(shell, strategy));
            var preferred := StrategyInput(shell, strategy, request).preferredNodeIds;
            && (Rank(preferred, x) < Rank(preferred, y) <==> x != y && NamedBefore(refs, Some(x), Some(y)))
            && (Rank(preferred, x) == Rank(preferred, y) <==> x == y || (Some(x) !in refs && Some(y) !in refs))
  {
    var routes := RoutesOf(shell, strategy);
    var list := Unique(NodeIds(routes));
    assert StrategyInput(shell, strategy, request).preferredNodeIds == Some(list);
    UniqueLength(NodeIds(routes));
    NodeIdsLength(routes);
    hide StrategyInput, RoutesOf;
    RankIsNaming(list, x, y);
    UniqueMembers(NodeIds(routes));
    NodeIdsAre(routes, x, y);
    NodeIdsAre(routes, y, x);
    hide Unique, NodeIds, NodeRefs, Rank;
    if x != y && x in NodeIds(routes) {
      UniquePrecedes(NodeIds(routes), x, y);
    }
  }

  lemma {:induction false} UniqueLength(ids: seq<string>)
    ensures |Unique(ids)| <= |ids|
    decreases |ids|
  {
    if ids != [] {
      UniqueLength(ids[..|ids| - 1]);
    }
  }

  lemma {:induction false} NodeIdsLength(routes: seq<Route>)
    ensures |NodeIds(routes)| <= |routes|
    decreases |routes|
  {
    if routes != [] {
      NodeIdsLength(routes[..|routes| - 1]);
    }
  }

  /** Of two nodes, the one the routes name first comes first; else the one whose locality the request names first;
      else the one that stands first. */
  lemma NodesInTurn(shell: Shell, strategy: Strategy, request: Request, a: nat, b: nat)
    requires a < |shell.routing.runtimeNodes| && b < |shell.routing.runtimeNodes|
    requires |RoutesOf(shell, strategy)| <= MAX_SAFE_INTEGER
    requires request.preferredLocalities.Some? ==> |request.preferredLocalities.value| <= MAX_SAFE_INTEGER
    ensures var x, y := shell.routing.runtimeNodes[a], shell.routing.runtimeNodes[b];
            var refs := NodeRefs(RoutesOf(shell, strategy));
            var localities := if request.preferredLocalities.Some? then request.preferredLocalities.value else [];
            Before(shell.routing, StrategyInput(shell, strategy, request), a, b) <==>
              if x.id != y.id && (Some(x.id) in refs || Some(y.id) in refs) then
                NamedBefore(refs, Some(x.id), Some(y.id))
              else if x.locality != y.locality && (x.locality in localities || y.locality in localities) then
                NamedBefore(localities, x.locality, y.locality)
              else a < b
  {
    var x, y := shell.routing.runtimeNodes[a], shell.routing.runtimeNodes[b];
    var localities := if request.preferredLocalities.Some? then request.preferredLocalities.value else [];
    NodeRankIsNaming(shell, strategy, request, x.id, y.id);
    RankIsNaming(localities, x.locality, y.locality);
    assert StrategyInput(shell, strategy, request).preferredLocalities == request.preferredLocalities;
    assert Rank(None, x.locality) == Rank(None, y.locality);
    hide StrategyInput, RoutesOf, NodeRefs, NamedBefore, Rank;
    if request.preferredLocalities.None? {
      assert x.locality !in localities && y.locality !in localities;
    }
  }

  lemma DecisionIs(shell: Shell, strategy: Strategy, request: Request, d: Decision)
    requires var input := StrategyInput(shell, strategy, request);
             && (Viable(shell.routing, input) ==>
                   exists i: nat, k: nat ::
                     Least(shell.routing, input, i, k) && d == DecisionAt(shell.routing, input, i, k))
             && (!Viable(shell.routing, input) ==> d == LastResort(shell.routing, input))
    ensures d.reason.PrimaryHealthy? || d.reason.FallbackInPolicy? ==>
              exists k: nat :: k < |shell.routing.runtimeNodes| && d.nodeId == Some(shell.routing.runtimeNodes[k].id) &&
                               d.model.Some? &&
                               RunsPreferred(shell, strategy, request, shell.routing.runtimeNodes[k], d.model.value)
    ensures (exists p: nat, k: nat :: Servable(shell, strategy, request, p, k)) ==>
              && (d.reason.PrimaryHealthy? || d.reason.FallbackInPolicy?)
              && d.providerId.Some? && Serves(shell, strategy, request, d.providerId.value)
    ensures d.reason.PrimaryHealthy? ==> d.providerId == Some(strategy.primaryRoute.providerId)
    ensures d.reason.ResurrectionAvailable? <==>
            && !Viable(shell.routing, StrategyInput(shell, strategy, request)) && !strategy.hardStopWhenNoFallback
            && exists r: nat, k: nat :: Recovers(shell.routing, r, k)
  {
    var input := StrategyInput(shell, strategy, request);
    assert input.primary == Some(strategy.primaryRoute.providerId);
    assert ResurrectionAllowed(shell.routing, input) <==> !strategy.hardStopWhenNoFallback;
    LastResortIs(shell.routing, input);
    LastResortReason(shell.routing, input);
    hide *;
    if p: nat, k: nat :| Servable(shell, strategy, request, p, k) {
      var j := ServableIsAdmissible(shell, strategy, request, p, k);
      AdmissibleIsViable(shell.routing, input, j, k);
    }
    if Viable(shell.routing, input) {
      var i: nat, m: nat :| Least(shell.routing, input, i, m) && d == DecisionAt(shell.routing, input, i, m);
      LeastIsAdmissible(shell.routing, input, i, m);
      var q, a, model := AdmissibleIsInPolicy(shell.routing, input, i, m);
      InPolicyRuns(shell.routing, input, q, m, a, model);
      PreferredRuns(shell, strategy, request, shell.routing.providers[q], shell.routing.runtimeNodes[m], model);
      if p: nat, k: nat :| Servable(shell, strategy, request, p, k) {
        ServingProviderChosen(shell, strategy, request, p, k, i, m);
      }
    }
  }

  lemma AdmissibleIsViable(state: State, input: Input, i: nat, k: nat)
    requires AdmissibleAt(state, input, i, k)
    ensures Viable(state, input)
  {
    hide AdmissibleAt;
  }

  lemma LeastIsAdmissible(state: State, input: Input, i: nat, k: nat)
    requires Least(state, input, i, k)
    ensures AdmissibleAt(state, input, i, k) && i < |OrderedIds(state, input)| && k < |state.runtimeNodes|
  {
    hide Admissible, OrderedIds;
  }

  lemma InPolicyRuns(state: State, input: Input, p: nat, k: nat, a: nat, model: string)
    requires InPolicy(state, input, p, k, a, model)
    ensures p < |state.providers| && k < |state.runtimeNodes| && a < |state.executionAdapters|
    ensures Runs(input, state.providers[p], state.runtimeNodes[k], model)
  {
  }

  /** A route found without preference and under the default posture is found under any posture and
      with any preference. */
  method ResolveStrategyRoute(shell: Shell, strategy: Strategy, request: Request) returns (d: Decision)
    ensures d.reason.PrimaryHealthy? || d.reason.FallbackInPolicy? <==>
            Viable(shell.routing, StrategyInput(shell, strategy, request))
    ensures Viable(shell.routing, StrategyInput(shell, strategy, request)) ==>
              var input := StrategyInput(shell, strategy, request);
              exists i: nat, k: nat :: Least(shell.routing, input, i, k) && d == DecisionAt(shell.routing, input, i, k)
    ensures d.reason.PrimaryHealthy? || d.reason.FallbackInPolicy? ==>
              exists k: nat :: k < |shell.routing.runtimeNodes| && d.nodeId == Some(shell.routing.runtimeNodes[k].id) &&
                               d.model.Some? &&
                               RunsPreferred(shell, strategy, request, shell.routing.runtimeNodes[k], d.model.value)
    ensures (exists p: nat, k: nat :: Servable(shell, strategy, request, p, k)) ==>
              && (d.reason.PrimaryHealthy? || d.reason.FallbackInPolicy?)
              && d.providerId.Some? && Serves(shell, strategy, request, d.providerId.value)
    ensures d.reason.PrimaryHealthy? ==> d.providerId == Some(strategy.primaryRoute.providerId)
    ensures d.reason.ResurrectionAvailable? <==>
            && !Viable(shell.routing, StrategyInput(shell, strategy, request)) && !strategy.hardStopWhenNoFallback
            && exists r: nat, k: nat :: Recovers(shell.routing, r, k)
    ensures Viable(shell.routing,
                   StrategyInput(shell.(activeCostPosture := None), strategy, request.(preferredModel := None)))
            ==> d.reason.PrimaryHealthy? || d.reason.FallbackInPolicy?
  {
    d := ResolveProviderRoute(shell.routing, StrategyInput(shell, strategy, request));
    DecisionIs(shell, strategy, request, d);
    ghost var plain := shell.(activeCostPosture := None);
    assert plain.(activeCostPosture := shell.activeCostPosture) == shell;
    PostureFailOpen(plain, strategy, request, shell.activeCostPosture);
    hide *;
    if Viable(shell.routing, StrategyInput(plain, strategy, request.(preferredModel := None))) {
      PreferredModelKeepsViable(plain, strategy, request);
    }
  }
}
