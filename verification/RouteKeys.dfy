/** Keys of strategy route options: a provider, a node and a model joined into one
    string, from which the route is found again. */
module RouteKeys {
  import opened Options
  import opened ProviderRoute
  import opened StrategyRoute

  /** A route offered to the user: the fields of the route, without labels. */
  datatype RouteOption = RouteOption(providerId: string, nodeId: string, model: string, costPosture: Posture)

  function RouteOf(o: RouteOption): Route {
    Route(o.providerId, Some(o.nodeId), o.model, Some(o.costPosture))
  }

  /** A route without a node is keyed by a stand-in. */
  function NodeName(nodeId: Option<string>): string {
    if nodeId.Some? then nodeId.value else "provider"
  }

  /** The part of a key before the model. */
  function Head(providerId: string, nodeName: string): string {
    providerId + "::" + nodeName + "::"
  }

  /** `routeOptionKey`. */
  function RouteKey(route: Route): string {
    Head(route.providerId, NodeName(route.nodeId)) + route.model
  }

  function KeyOf(o: RouteOption): string {
    RouteKey(RouteOf(o))
  }

  function InferCostPosture(provider: Provider, node: Node): Posture {
    if node.id == "node-local-resurrect" then EmergencyOnly
    else if node.kind == "local" || node.kind == "remote-user-owned" || provider.providerType == "local" then FreeLocal
    else if provider.authMethod == "subscription" then Subscription
    else if provider.authMethod == "api-key" then PaidApi
    else if provider.authSource == "shared-vault" then Subscription
    else UnknownPosture
  }

  /** The recovery node is for emergencies, what the user runs is free, and the rest goes by how it is paid. */
  lemma PosturesAre(provider: Provider, node: Node)
    ensures var posture := InferCostPosture(provider, node);
            var emergency := node.id == "node-local-resurrect";
            var own := provider.providerType == "local" || node.kind in {"local", "remote-user-owned"};
            && (posture == EmergencyOnly <==> emergency)
            && (posture == FreeLocal <==> own && !emergency)
            && (posture == PaidApi <==> !own && !emergency && provider.authMethod == "api-key")
            && (posture == Subscription <==>
                !own && !emergency && provider.authMethod != "api-key" &&
                (provider.authMethod == "subscription" || provider.authSource == "shared-vault"))
            && (posture != UnknownPosture <==>
                emergency || own || provider.authSource == "shared-vault" ||
                provider.authMethod in {"api-key", "subscription"})
  {
  }

  function OptionsFor(provider: Provider, node: Node, models: seq<string>): seq<RouteOption> {
    if models == [] then []
    else
      OptionsFor(provider, node, models[..|models| - 1]) +
      [RouteOption(provider.id, node.id, models[|models| - 1], InferCostPosture(provider, node))]
  }

  function NodeOptions(state: State, node: Node): seq<RouteOption> {
    match FindProvider(state.providers, node.providerProfileId)
    case None => []
    case Some(provider) =>
      if node.kind == "remote-user-owned" && !("http" <= node.endpoint) then []
      else OptionsFor(provider, node, Unique(node.supportedModels + provider.allowedModels))
  }

  /** The options of the first n nodes, in order. */
  function BuildOptions(state: State, n: nat): seq<RouteOption>
    requires n <= |state.runtimeNodes|
  {
    if n == 0 then [] else BuildOptions(state, n - 1) + NodeOptions(state, state.runtimeNodes[n - 1])
  }

  function AllOptions(state: State): seq<RouteOption> {
    BuildOptions(state, |state.runtimeNodes|)
  }

  function FindKey(options: seq<RouteOption>, key: string): Option<RouteOption> {
    if options == [] then None
    else if KeyOf(options[0]) == key then Some(options[0])
    else FindKey(options[1..], key)
  }

  function RouteFromKey(state: State, key: string): Option<Route> {
    match FindKey(AllOptions(state), key)
    case None => None
    case Some(o) => Some(RouteOf(o))
  }

  predicate NoColon(s: string) {
    ':' !in s
  }

  /** Two texts cut at their first colon agree before it and after it. */
  lemma FirstColon(a: string, x: string, b: string, y: string)
    requires NoColon(a) && NoColon(b) && a + ":" + x == b + ":" + y
    ensures a == b && x == y
  {
    var s, t := a + ":" + x, b + ":" + y;
    forall i: nat | i < |a| ensures s[i] != ':' {
      assert s[i] == a[i] && a[i] in a;
    }
    forall i: nat | i < |b| ensures t[i] != ':' {
      assert t[i] == b[i] && b[i] in b;
    }
    assert s[|a|] == ':' && t[|b|] == ':';
    assert |a| == |b|;
    assert s[..|a|] == a && t[..|b|] == b;
    assert s[|a| + 1..] == x && t[|b| + 1..] == y;
  }

  /** Two heads begin the same key, for some models, exactly when one of them begins the other. */
  lemma HeadsShareKey(a: string, b: string)
    ensures (exists x: string, y: string :: a + x == b + y) <==> a <= b || b <= a
  {
    if a <= b {
      assert a + b[|a|..] == b + "";
    } else if b <= a {
      assert a + "" == b + a[|b|..];
    } else if x: string, y: string :| a + x == b + y {
      HeadsNested(a, x, b, y);
    }
  }

  lemma HeadsNested(a: string, x: string, b: string, y: string)
    requires a + x == b + y
    ensures a <= b || b <= a
  {
    var s := a + x;
    assert s[..|a|] == a && (b + y)[..|b|] == b;
  }

  /** Heads of ids without colons begin one another only when they are the same ids. */
  lemma PlainHeads(p: string, n: string, q: string, m: string)
    requires NoColon(p) && NoColon(n) && NoColon(q) && NoColon(m) && Head(p, n) <= Head(q, m)
    ensures p == q && n == m
  {
    var rest := Head(q, m)[|Head(p, n)|..];
    assert Head(p, n) + rest == Head(q, m);
    var x, y := ":" + n + "::" + rest, ":" + m + "::";
    assert Head(p, n) + rest == p + ":" + x && Head(q, m) == q + ":" + y;
    FirstColon(p, x, q, y);
    var u, v := ":" + rest, ":";
    assert x[1..] == n + ":" + u && y[1..] == m + ":" + v;
    FirstColon(n, u, m, v);
  }

  /** Without colons in provider ids and node names, two routes share a key exactly when they have the same
      provider, the same node name and the same model, whatever the models hold.  So a route without a node
      shares the keys of a node called `provider`, and no others. */
  lemma KeyInjective(a: Route, b: Route)
    requires NoColon(a.providerId) && NoColon(NodeName(a.nodeId))
    requires NoColon(b.providerId) && NoColon(NodeName(b.nodeId))
    ensures RouteKey(a) == RouteKey(b) <==>
            a.providerId == b.providerId && NodeName(a.nodeId) == NodeName(b.nodeId) && a.model == b.model
  {
    if RouteKey(a) == RouteKey(b) {
      var h, k := Head(a.providerId, NodeName(a.nodeId)), Head(b.providerId, NodeName(b.nodeId));
      HeadsNested(h, a.model, k, b.model);
      if h <= k {
        PlainHeads(a.providerId, NodeName(a.nodeId), b.providerId, NodeName(b.nodeId));
      } else {
        PlainHeads(b.providerId, NodeName(b.nodeId), a.providerId, NodeName(a.nodeId));
      }
      hide Head, NodeName;
      assert RouteKey(a)[|h|..] == a.model && RouteKey(b)[|h|..] == b.model;
    }
  }

  /** Every option belongs to a node, its provider, and the posture inferred for the two. */
  predicate Belongs(state: State, o: RouteOption, k: nat) {
    k < |state.runtimeNodes| &&
    var node := state.runtimeNodes[k];
    var provider := FindProvider(state.providers, node.providerProfileId);
    provider.Some? && o.nodeId == node.id && o.providerId == provider.value.id
    && o.costPosture == InferCostPosture(provider.value, node)
  }

  /** Node k offers the option: it can be reached, and it or its provider lists the model. */
  predicate Offers(state: State, k: nat, o: RouteOption) {
    && Belongs(state, o, k)
    && var node := state.runtimeNodes[k];
       var provider := FindProvider(state.providers, node.providerProfileId).value;
       (node.kind == "remote-user-owned" ==> "http" <= node.endpoint)
       && (o.model in node.supportedModels || o.model in provider.allowedModels)
  }

  lemma {:induction false} OptionsForAre(provider: Provider, node: Node, models: seq<string>)
    ensures forall o: RouteOption :: o in OptionsFor(provider, node, models) <==>
              o == RouteOption(provider.id, node.id, o.model, InferCostPosture(provider, node)) && o.model in models
    decreases |models|
  {
    hide InferCostPosture;
    if models != [] {
      OptionsForAre(provider, node, models[..|models| - 1]);
      assert models == models[..|models| - 1] + [models[|models| - 1]];
    }
  }

  lemma NodeOptionsAre(state: State, k: nat, o: RouteOption)
    requires k < |state.runtimeNodes|
    ensures o in NodeOptions(state, state.runtimeNodes[k]) <==> Offers(state, k, o)
  {
    var node := state.runtimeNodes[k];
    var found := FindProvider(state.providers, node.providerProfileId);
    if found.Some? {
      var models := node.supportedModels + found.value.allowedModels;
      OptionsForAre(found.value, node, Unique(models));
      UniqueMembers(models);
    }
    hide InferCostPosture, FindProvider, OptionsFor, Unique;
  }

  lemma InConcat<T>(a: seq<T>, b: seq<T>, x: T)
    ensures x in a + b <==> x in a || x in b
  {
  }

  lemma BuildUnfolds(state: State, n: nat)
    requires 0 < n <= |state.runtimeNodes|
    ensures BuildOptions(state, n) == BuildOptions(state, n - 1) + NodeOptions(state, state.runtimeNodes[n - 1])
  {
    hide NodeOptions;
  }

  lemma BuildStep(state: State, n: nat, o: RouteOption)
    requires 0 < n <= |state.runtimeNodes|
    ensures o in BuildOptions(state, n) <==> o in BuildOptions(state, n - 1) || Offers(state, n - 1, o)
  {
    hide *;
    BuildUnfolds(state, n);
    NodeOptionsAre(state, n - 1, o);
    InConcat(BuildOptions(state, n - 1), NodeOptions(state, state.runtimeNodes[n - 1]), o);
  }

  /** One of the first n nodes offers the option. */
  ghost predicate OfferedBefore(state: State, n: nat, o: RouteOption) {
    exists k: nat :: k < n && Offers(state, k, o)
  }

  lemma OfferedStep(state: State, n: nat, o: RouteOption)
    requires n > 0
    ensures OfferedBefore(state, n, o) <==> OfferedBefore(state, n - 1, o) || Offers(state, n - 1, o)
  {
    hide Offers;
  }

  lemma {:induction false} BuildOptionsAre(state: State, n: nat, o: RouteOption)
    requires n <= |state.runtimeNodes|
    ensures o in BuildOptions(state, n) <==> OfferedBefore(state, n, o)
    decreases n
  {
    if n > 0 {
      hide *;
      BuildStep(state, n, o);
      OfferedStep(state, n, o);
      BuildOptionsAre(state, n - 1, o);
    }
  }

  /** The options are exactly those some node offers. */
  lemma OptionsAreOffers(state: State, o: RouteOption)
    ensures o in AllOptions(state) <==> exists k: nat :: Offers(state, k, o)
  {
    BuildOptionsAre(state, |state.runtimeNodes|, o);
    hide BuildOptions;
    if k: nat :| Offers(state, k, o) {
      assert k < |state.runtimeNodes|;
      hide Offers;
    }
  }

  // ----- when keys are faithful -----

  /** Node k can be reached and its provider is known, so it offers the models the two list. */
  predicate Reachable(state: State, k: nat) {
    && k < |state.runtimeNodes|
    && FindProvider(state.providers, state.runtimeNodes[k].providerProfileId).Some?
    && (state.runtimeNodes[k].kind == "remote-user-owned" ==> "http" <= state.runtimeNodes[k].endpoint)
  }

  /** What node k makes of a model. */
  function OptionAt(state: State, k: nat, model: string): RouteOption
    requires Reachable(state, k)
  {
    var node := state.runtimeNodes[k];
    var provider := FindProvider(state.providers, node.providerProfileId).value;
    RouteOption(provider.id, node.id, model, InferCostPosture(provider, node))
  }

  function HeadAt(state: State, k: nat): string
    requires Reachable(state, k)
  {
    Head(OptionAt(state, k, "").providerId, OptionAt(state, k, "").nodeId)
  }

  /** Nodes that make different options of a model have heads of which none begins the other. */
  predicate ClearHeads(state: State) {
    forall k: nat, m: nat | k < |state.runtimeNodes| && m < |state.runtimeNodes|
        && Reachable(state, k) && Reachable(state, m) && OptionAt(state, k, "") != OptionAt(state, m, "") ::
      !(HeadAt(state, k) <= HeadAt(state, m))
  }

  ghost predicate KeysDistinct(state: State) {
    forall o: RouteOption, q: RouteOption | o in AllOptions(state) && q in AllOptions(state) && KeyOf(o) == KeyOf(q) ::
      o == q
  }

  ghost predicate RoundTrips(state: State) {
    forall o: RouteOption | o in AllOptions(state) :: RouteFromKey(state, KeyOf(o)) == Some(RouteOf(o))
  }

  lemma OfferIsOption(state: State, k: nat, o: RouteOption)
    requires Offers(state, k, o)
    ensures Reachable(state, k) && o == OptionAt(state, k, o.model) && KeyOf(o) == HeadAt(state, k) + o.model
    ensures o.(model := "") == OptionAt(state, k, "")
  {
    hide InferCostPosture, FindProvider;
  }

  /** With clear heads, an option is determined by its key. */
  lemma OptionsDistinct(state: State, o: RouteOption, q: RouteOption)
    requires ClearHeads(state) && o in AllOptions(state) && q in AllOptions(state) && KeyOf(o) == KeyOf(q)
    ensures o == q
  {
    OptionsAreOffers(state, o);
    OptionsAreOffers(state, q);
    var k: nat :| Offers(state, k, o);
    var m: nat :| Offers(state, m, q);
    OfferIsOption(state, k, o);
    OfferIsOption(state, m, q);
    hide Offers, AllOptions, KeyOf;
    HeadsNested(HeadAt(state, k), o.model, HeadAt(state, m), q.model);
    hide OptionAt, Reachable;
    assert o.(model := "") == q.(model := "");
    hide ClearHeads;
    SameHeadSameModel(o, q);
  }

  lemma SameHeadSameModel(o: RouteOption, q: RouteOption)
    requires o.(model := "") == q.(model := "")
    requires KeyOf(o) == KeyOf(q)
    ensures o == q
  {
    var head := Head(o.providerId, o.nodeId);
    assert KeyOf(o) == head + o.model && KeyOf(q) == head + q.model;
    hide Head, KeyOf;
    assert (head + o.model)[|head|..] == o.model && (head + q.model)[|head|..] == q.model;
  }

  lemma {:induction false} FindKeyFinds(options: seq<RouteOption>, key: string)
    ensures match FindKey(options, key)
            case None => forall o <- options :: KeyOf(o) != key
            case Some(o) => o in options && KeyOf(o) == key
    decreases |options|
  {
    if options != [] && KeyOf(options[0]) != key {
      FindKeyFinds(options[1..], key);
      assert options == [options[0]] + options[1..];
    }
  }

  /** With clear heads, the route found for an option's key is that option's route. */
  lemma KeyRoundTrip(state: State, o: RouteOption)
    requires ClearHeads(state) && o in AllOptions(state)
    ensures RouteFromKey(state, KeyOf(o)) == Some(RouteOf(o))
  {
    FindKeyFinds(AllOptions(state), KeyOf(o));
    hide AllOptions, KeyOf, FindKey;
    var found := FindKey(AllOptions(state), KeyOf(o)).value;
    OptionsDistinct(state, o, found);
  }

  /** A key of no option finds no route. */
  lemma UnknownKey(state: State, key: string)
    ensures RouteFromKey(state, key).Some? <==> exists o <- AllOptions(state) :: KeyOf(o) == key
  {
    FindKeyFinds(AllOptions(state), key);
    hide AllOptions, KeyOf, FindKey;
  }

  /** Every option's key finds its own route exactly when no two options share a key. */
  lemma RoundTripsExactly(state: State)
    ensures RoundTrips(state) <==> KeysDistinct(state)
  {
    hide AllOptions, KeyOf, FindKey;
    forall o: RouteOption | o in AllOptions(state)
      ensures FindKey(AllOptions(state), KeyOf(o)).Some?
      ensures var found := FindKey(AllOptions(state), KeyOf(o)).value;
              found in AllOptions(state) && KeyOf(found) == KeyOf(o)
    {
      FindKeyFinds(AllOptions(state), KeyOf(o));
    }
  }

  // ----- for all model lists -----

  /** The same providers and nodes, but for the models they list. */
  ghost predicate SameButModels(a: State, b: State) {
    && |a.providers| == |b.providers| && |a.runtimeNodes| == |b.runtimeNodes|
    && (forall i: nat | i < |a.providers| ::
          b.providers[i] == a.providers[i].(allowedModels := b.providers[i].allowedModels))
    && (forall i: nat | i < |a.runtimeNodes| ::
          b.runtimeNodes[i] == a.runtimeNodes[i].(supportedModels := b.runtimeNodes[i].supportedModels))
  }

  lemma {:induction false} SameProviderFound(a: seq<Provider>, b: seq<Provider>, id: string)
    requires |a| == |b|
    requires forall i: nat | i < |a| :: b[i] == a[i].(allowedModels := b[i].allowedModels)
    ensures match FindProvider(a, id)
            case None => FindProvider(b, id).None?
            case Some(p) => FindProvider(b, id).Some?
                            && FindProvider(b, id).value == p.(allowedModels := FindProvider(b, id).value.allowedModels)
    decreases |a|
  {
    if a != [] {
      assert b[0] == a[0].(allowedModels := b[0].allowedModels);
      if a[0].id != id {
        SameProviderFound(a[1..], b[1..], id);
      }
    }
  }

  lemma SameOptionAt(a: State, b: State, k: nat)
    requires SameButModels(a, b)
    ensures Reachable(a, k) <==> Reachable(b, k)
    ensures Reachable(a, k) ==> OptionAt(a, k, "") == OptionAt(b, k, "") && HeadAt(a, k) == HeadAt(b, k)
  {
    if k < |a.runtimeNodes| {
      SameProviderFound(a.providers, b.providers, a.runtimeNodes[k].providerProfileId);
      assert b.runtimeNodes[k] == a.runtimeNodes[k].(supportedModels := b.runtimeNodes[k].supportedModels);
      hide FindProvider;
    }
  }

  lemma ClearHeadsSame(a: State, b: State)
    requires SameButModels(a, b) && ClearHeads(a)
    ensures ClearHeads(b)
  {
    forall k: nat, m: nat | k < |b.runtimeNodes| && m < |b.runtimeNodes|
        && Reachable(b, k) && Reachable(b, m) && OptionAt(b, k, "") != OptionAt(b, m, "")
      ensures !(HeadAt(b, k) <= HeadAt(b, m))
    {
      SameOptionAt(a, b, k);
      SameOptionAt(a, b, m);
      hide OptionAt, HeadAt, Reachable;
    }
    hide OptionAt, HeadAt, Reachable;
  }

  /** Every node lists the given models, and no provider lists any. */
  function Relisted(state: State, models: seq<string>): State {
    state.(
      providers := seq(|state.providers|, i requires 0 <= i < |state.providers| =>
        state.providers[i].(allowedModels := [])),
      runtimeNodes := seq(|state.runtimeNodes|, i requires 0 <= i < |state.runtimeNodes| =>
        state.runtimeNodes[i].(supportedModels := models)))
  }

  lemma RelistedOffers(state: State, models: seq<string>, k: nat, model: string)
    requires Reachable(state, k) && model in models
    ensures SameButModels(state, Relisted(state, models))
    ensures var o := OptionAt(state, k, "").(model := model);
            o in AllOptions(Relisted(state, models)) && KeyOf(o) == HeadAt(state, k) + model
  {
    var t := Relisted(state, models);
    assert SameButModels(state, t);
    SameOptionAt(state, t, k);
    var o := OptionAt(state, k, "").(model := model);
    assert t.runtimeNodes[k].supportedModels == models;
    hide FindProvider, InferCostPosture;
    assert Offers(t, k, o);
    OptionsAreOffers(t, o);
  }

  lemma SameText(h: string, i: string, model: string)
    requires h <= i
    ensures h + (i[|h|..] + model) == i + model
  {
    assert h + i[|h|..] == i;
  }

  /** Where one head begins another, some lists of models make two options share a key. */
  lemma UnclearHeads(state: State, k: nat, m: nat) returns (t: State)
    requires Reachable(state, k) && Reachable(state, m) && OptionAt(state, k, "") != OptionAt(state, m, "")
    requires HeadAt(state, k) <= HeadAt(state, m)
    ensures SameButModels(state, t) && !KeysDistinct(t)
  {
    hide *;
    var short := "model";
    var long := HeadAt(state, m)[|HeadAt(state, k)|..] + short;
    SameText(HeadAt(state, k), HeadAt(state, m), short);
    var models := [long, short];
    t := Relisted(state, models);
    RelistedOffers(state, models, k, long);
    RelistedOffers(state, models, m, short);
    OptionAtBlank(state, k);
    OptionAtBlank(state, m);
    var o, q := OptionAt(state, k, ""), OptionAt(state, m, "");
    DifferentOptions(o, q, long, short);
    NotDistinct(t, o.(model := long), q.(model := short));
  }

  lemma OptionAtBlank(state: State, k: nat)
    requires Reachable(state, k)
    ensures OptionAt(state, k, "").model == ""
  {
  }

  lemma DifferentOptions(o: RouteOption, q: RouteOption, x: string, y: string)
    requires o != q && o.model == q.model
    ensures o.(model := x) != q.(model := y)
  {
  }

  lemma NotDistinct(state: State, o: RouteOption, q: RouteOption)
    requires o in AllOptions(state) && q in AllOptions(state) && KeyOf(o) == KeyOf(q) && o != q
    ensures !KeysDistinct(state)
  {
    hide AllOptions, KeyOf;
  }

  /** Whatever models are listed, every option's key finds its own route, exactly when the heads are clear. */
  lemma KeysFaithfulExactly(state: State)
    ensures (forall t: State | SameButModels(state, t) :: RoundTrips(t)) <==> ClearHeads(state)
  {
    hide RoundTrips, SameButModels;
    if ClearHeads(state) {
      forall t: State | SameButModels(state, t) ensures RoundTrips(t) {
        ClearHeadsSame(state, t);
        AllRoundTrip(t);
      }
    } else {
      var k: nat, m: nat :| k < |state.runtimeNodes| && m < |state.runtimeNodes|
        && Reachable(state, k) && Reachable(state, m) && OptionAt(state, k, "") != OptionAt(state, m, "")
        && HeadAt(state, k) <= HeadAt(state, m);
      hide Reachable, OptionAt, HeadAt, KeysDistinct;
      var t := UnclearHeads(state, k, m);
      RoundTripsExactly(t);
    }
  }

  lemma AllRoundTrip(state: State)
    requires ClearHeads(state)
    ensures RoundTrips(state)
  {
    hide ClearHeads, AllOptions, RouteFromKey, KeyOf;
    forall o: RouteOption | o in AllOptions(state) ensures RouteFromKey(state, KeyOf(o)) == Some(RouteOf(o)) {
      KeyRoundTrip(state, o);
    }
  }

  predicate PlainIds(state: State) {
    && (forall n <- state.runtimeNodes :: NoColon(n.id) && NoColon(n.providerProfileId))
    && (forall i: nat, j: nat | i < j < |state.runtimeNodes| :: state.runtimeNodes[i].id != state.runtimeNodes[j].id)
  }

  /** Distinct node ids, and ids without colons, make the heads clear. */
  lemma PlainIdsAreClear(state: State)
    requires PlainIds(state)
    ensures ClearHeads(state)
  {
    forall k: nat, m: nat | k < |state.runtimeNodes| && m < |state.runtimeNodes|
        && Reachable(state, k) && Reachable(state, m) && OptionAt(state, k, "") != OptionAt(state, m, "")
      ensures !(HeadAt(state, k) <= HeadAt(state, m))
    {
      FindProviderHasId(state.providers, state.runtimeNodes[k].providerProfileId);
      FindProviderHasId(state.providers, state.runtimeNodes[m].providerProfileId);
      assert state.runtimeNodes[k] in state.runtimeNodes && state.runtimeNodes[m] in state.runtimeNodes;
      hide FindProvider, InferCostPosture;
      var o, q := OptionAt(state, k, ""), OptionAt(state, m, "");
      if HeadAt(state, k) <= HeadAt(state, m) {
        PlainHeads(o.providerId, o.nodeId, q.providerId, q.nodeId);
      }
    }
  }

  // ----- a concrete collision -----

  const COLLIDING_PROVIDER :=
    Provider("p", "openai", "shared-vault", "api-key", "supported", false, false, "b", None, [])
  const SHORT_NODE := Node("n", "p", "cloud", "cloud", "", ["a::b"], "supported", Ready, false)
  const LONG_NODE := Node("n::a", "p", "cloud", "cloud", "", ["b"], "supported", Ready, false)
  const COLLIDING := State([COLLIDING_PROVIDER], [SHORT_NODE, LONG_NODE], [], [], [], false)

  /** Looking up the second option's key returns the first node's route. */
  lemma ColonsCollide(first: RouteOption, second: RouteOption)
    requires first == RouteOption("p", "n", "a::b", PaidApi) && second == RouteOption("p", "n::a", "b", PaidApi)
    ensures AllOptions(COLLIDING) == [first, second]
    ensures RouteFromKey(COLLIDING, KeyOf(second)) == Some(RouteOf(first)) && RouteOf(first) != RouteOf(second)
  {
    CollidingOptions();
    assert KeyOf(first) == KeyOf(second) by {
      assert "n" + "::" + "a::b" == "n::a" + "::" + "b";
    }
    assert first.nodeId != second.nodeId by { assert |first.nodeId| != |second.nodeId|; }
    hide KeyOf;
  }

  lemma OneModel(node: Node, model: string)
    requires node.providerProfileId == "p" && node.kind == "cloud" && node.supportedModels == [model]
    requires |node.id| < 5
    ensures NodeOptions(COLLIDING, node) == [RouteOption("p", node.id, model, PaidApi)]
  {
    assert FindProvider(COLLIDING.providers, node.providerProfileId) == Some(COLLIDING_PROVIDER);
    assert node.kind != "remote-user-owned" && node.kind != "local" by {
      assert |node.kind| == 5 && node.kind[0] == 'c' && |"remote-user-owned"| != 5 && "local"[0] == 'l';
    }
    assert InferCostPosture(COLLIDING_PROVIDER, node) == PaidApi by {
      assert |"node-local-resurrect"| == 20 && |"openai"| == 6 && |"api-key"| == 7 && |"subscription"| == 12;
    }
    var models := node.supportedModels + COLLIDING_PROVIDER.allowedModels;
    var none: seq<string> := [];
    assert models == [model] && models[..0] == none;
    assert Unique(models) == Unique(none) + [model];
    hide InferCostPosture;
    assert OptionsFor(COLLIDING_PROVIDER, node, models) ==
           OptionsFor(COLLIDING_PROVIDER, node, none) + [RouteOption("p", node.id, model, PaidApi)];
  }

  lemma CollidingOptions()
    ensures AllOptions(COLLIDING) == [RouteOption("p", "n", "a::b", PaidApi), RouteOption("p", "n::a", "b", PaidApi)]
  {
    OneModel(SHORT_NODE, "a::b");
    OneModel(LONG_NODE, "b");
    hide NodeOptions;
    BuildUnfolds(COLLIDING, 1);
    BuildUnfolds(COLLIDING, 2);
    assert BuildOptions(COLLIDING, 0) == [];
  }
}
