/** The single-flight bootstrap of capability tokens: one cached promise per bridge
    configuration, dropped only by whoever finds it still in place, and at most one
    retry of a denied route.

    Promises are numbered in the order of their creation.  Every await is a separate
    step, so runs interleave any number of invocations and bootstraps. */
module CapabilityBootstrap {
  import opened Options

  /** What `bootstrapKey` serialises. */
  datatype Key = Key(baseUrl: string, bridgeToken: string, bootstrapToken: string)

  datatype Config = Config(baseUrl: string, bridgeToken: Option<string>, bootstrapToken: Option<string>)

  /** The key to bootstrap with, when the configuration holds both secrets. */
  function KeyOf(c: Config): Option<Key> {
    if c.bridgeToken.Some? && c.bridgeToken.value != "" && c.bootstrapToken.Some? && c.bootstrapToken.value != "" then
      Some(Key(c.baseUrl, c.bridgeToken.value, c.bootstrapToken.value))
    else None
  }

  /** Configurations share a key exactly when they hold the same secrets for the same address. */
  lemma SameKeyExactly(a: Config, b: Config)
    ensures KeyOf(a) != None <==>
            && a.bridgeToken != None && a.bridgeToken != Some("")
            && a.bootstrapToken != None && a.bootstrapToken != Some("")
    ensures KeyOf(a) != None ==> (KeyOf(a) == KeyOf(b) <==> a == b)
  {
    assert a.bridgeToken.Some? ==> a.bridgeToken == Some(a.bridgeToken.value);
    assert a.bootstrapToken.Some? ==> a.bootstrapToken == Some(a.bootstrapToken.value);
    if KeyOf(a) != None && KeyOf(a) == KeyOf(b) {
      assert b.bridgeToken == Some(b.bridgeToken.value) == a.bridgeToken;
      assert b.bootstrapToken == Some(b.bootstrapToken.value) == a.bootstrapToken;
    }
  }

  type Tokens = map<string, string>

  /** A bootstrap is created, then posts its request, then settles; failure settles with no tokens. */
  datatype Progress = Created | Posted | Settled(ok: bool, tokens: Tokens)

  datatype Promise = Promise(key: Key, progress: Progress)

  datatype Slot = Slot(key: Key, promise: nat)

  /** The module variable and the promises made for it. */
  datatype Cache = Cache(slot: Option<Slot>, promises: seq<Promise>)

  function Holds(c: Cache, p: Option<nat>): bool {
    p.Some? && c.slot.Some? && c.slot.value.promise == p.value
  }

  /** The promise `ensureCapabilityTokens` returns; None is an already resolved empty one. */
  function EnsuredPromise(c: Cache, config: Config): Option<nat> {
    match KeyOf(config)
    case None => None
    case Some(key) => if c.slot.Some? && c.slot.value.key == key then Some(c.slot.value.promise) else Some(|c.promises|)
  }

  function Ensured(c: Cache, config: Config): Cache {
    match KeyOf(config)
    case None => c
    case Some(key) =>
      if c.slot.Some? && c.slot.value.key == key then c
      else Cache(Some(Slot(key, |c.promises|)), c.promises + [Promise(key, Created)])
  }

  function Dropped(c: Cache, p: Option<nat>): Cache {
    if Holds(c, p) then c.(slot := None) else c
  }

  function SettledWith(c: Cache, p: nat, reply: Option<Tokens>): Cache
    requires p < |c.promises|
  {
    var progress := if reply.Some? then Settled(true, reply.value) else Settled(false, map[]);
    var promise := c.promises[p].(progress := progress);
    var settled := c.(promises := c.promises[p := promise]);
    if reply.Some? then settled else Dropped(settled, Some(p))
  }

  // ----- the module variable as the code updates it -----

  class BootstrapState {
    var slot: Option<Slot>
    var promises: seq<Promise>

    function Value(): Cache
      reads this
    {
      Cache(slot, promises)
    }

    constructor ()
      ensures Value() == Cache(None, [])
    {
      slot, promises := None, [];
    }

    method EnsureCapabilityTokens(config: Config) returns (promise: Option<nat>)
      modifies this
      ensures promise == EnsuredPromise(old(Value()), config)
      ensures Value() == Ensured(old(Value()), config)
    {
      if config.bridgeToken.None? || config.bridgeToken.value == ""
         || config.bootstrapToken.None? || config.bootstrapToken.value == ""
      {
        return None;
      }
      var key := Key(config.baseUrl, config.bridgeToken.value, config.bootstrapToken.value);
      if slot.Some? && slot.value.key == key {
        return Some(slot.value.promise);
      }
      var created := |promises|;
      promises := promises + [Promise(key, Created)];
      slot := Some(Slot(key, created));
      return Some(created);
    }

    method SettleBootstrap(p: nat, reply: Option<Tokens>)
      requires p < |promises|
      modifies this
      ensures Value() == SettledWith(old(Value()), p, reply)
    {
      if reply.Some? {
        promises := promises[p := promises[p].(progress := Settled(true, reply.value))];
        return;
      }
      promises := promises[p := promises[p].(progress := Settled(false, map[]))];
      if slot.Some? && slot.value.promise == p {
        slot := None;
      }
    }

    /** The compare-before-clear of a denied route. */
    method DropBootstrap(tokenPromise: Option<nat>)
      modifies this`slot
      ensures Value() == Dropped(old(Value()), tokenPromise)
    {
      if slot.Some? && Some(slot.value.promise) == tokenPromise {
        slot := None;
      }
    }
  }

  // ----- invocations -----

  datatype Phase =
    | AwaitingTokens(promise: Option<nat>, retried: bool)
    | AwaitingRoute(promise: Option<nat>, token: Option<string>, retried: bool)
    | AwaitingFresh(promise: Option<nat>, stale: Option<string>)
    | Finished

  datatype Invocation = Invocation(capability: string, config: Config, phase: Phase, fetches: nat)

  /** The answer of a route, as `performInvoke` tells answers apart. */
  datatype Reply = CapabilityDenied | PermissionDenied | Other

  /** The cache, the invocations, and counters: bootstrap requests posted, slots cleared, slots
      overwritten for another key; `displaced` are the overwritten promises. */
  datatype System = System(
    cache: Cache, invocations: map<nat, Invocation>,
    posts: nat, clears: nat, replacements: nat, displaced: set<nat>)

  const START: System := System(Cache(None, []), map[], 0, 0, 0, {})

  datatype Step =
    | Begin(id: nat, capability: string, config: Config)
    | OpenStream(config: Config)
    | Post(promise: nat)
    | Settle(promise: nat, granted: Option<Tokens>)
    | SendRoute(id: nat)
    | Answer(id: nat, reply: Reply, config: Config)
    | Compare(id: nat, config: Config)

  function Ensure(s: System, config: Config): System {
    var overwrites := KeyOf(config).Some? && s.cache.slot.Some? && s.cache.slot.value.key != KeyOf(config).value;
    s.(cache := Ensured(s.cache, config),
       replacements := if overwrites then s.replacements + 1 else s.replacements,
       displaced := if overwrites then s.displaced + {s.cache.slot.value.promise} else s.displaced)
  }

  function Drop(s: System, p: Option<nat>): System {
    s.(cache := Dropped(s.cache, p), clears := if Holds(s.cache, p) then s.clears + 1 else s.clears)
  }

  predicate Ready(c: Cache, p: Option<nat>) {
    p.Some? ==> p.value < |c.promises| && c.promises[p.value].progress.Settled?
  }

  function TokensOf(c: Cache, p: Option<nat>): Tokens
    requires Ready(c, p)
  {
    if p.Some? then c.promises[p.value].progress.tokens else map[]
  }

  function TokenFor(c: Cache, p: Option<nat>, capability: string): Option<string>
    requires Ready(c, p)
  {
    var tokens := TokensOf(c, p);
    if capability in tokens && tokens[capability] != "" then Some(tokens[capability]) else None
  }

  function Put(s: System, id: nat, i: Invocation): System {
    s.(invocations := s.invocations[id := i])
  }

  /** Start over with the configuration as it is now. */
  function Retry(s: System, id: nat, i: Invocation, config: Config): System {
    Put(Ensure(s, config), id,
        i.(config := config, phase := AwaitingTokens(EnsuredPromise(s.cache, config), true)))
  }

  function Answered(s: System, id: nat, i: Invocation, reply: Reply, config: Config): System
    requires i.phase.AwaitingRoute?
  {
    if reply.CapabilityDenied? && !i.phase.retried then
      Retry(Drop(s, i.phase.promise), id, i, config)
    else if reply.PermissionDenied? && !i.phase.retried then
      var dropped := Drop(s, i.phase.promise);
      Put(Ensure(dropped, i.config), id,
          i.(phase := AwaitingFresh(EnsuredPromise(dropped.cache, i.config), i.phase.token)))
    else
      Put(s, id, i.(phase := Finished))
  }

  function Exec(s: System, step: Step): System {
    match step
    case Begin(id, capability, config) =>
      if id in s.invocations then s
      else
        Put(Ensure(s, config), id,
            Invocation(capability, config, AwaitingTokens(EnsuredPromise(s.cache, config), false), 0))
    case OpenStream(config) =>
      Ensure(s, config)
    case Post(p) =>
      if p < |s.cache.promises| && s.cache.promises[p].progress.Created? then
        s.(cache := s.cache.(promises := s.cache.promises[p := s.cache.promises[p].(progress := Posted)]),
           posts := s.posts + 1)
      else s
    case Settle(p, reply) =>
      if p < |s.cache.promises| && s.cache.promises[p].progress.Posted? then
        s.(cache := SettledWith(s.cache, p, reply),
           clears := if reply.None? && Holds(s.cache, Some(p)) then s.clears + 1 else s.clears)
      else s
    case SendRoute(id) =>
      if id in s.invocations && s.invocations[id].phase.AwaitingTokens?
         && Ready(s.cache, s.invocations[id].phase.promise)
      then
        var i := s.invocations[id];
        var token := TokenFor(s.cache, i.phase.promise, i.capability);
        Put(s, id, i.(phase := AwaitingRoute(i.phase.promise, token, i.phase.retried), fetches := i.fetches + 1))
      else s
    case Answer(id, reply, config) =>
      if id in s.invocations && s.invocations[id].phase.AwaitingRoute? then
        Answered(s, id, s.invocations[id], reply, config)
      else s
    case Compare(id, config) =>
      if id in s.invocations && s.invocations[id].phase.AwaitingFresh?
         && Ready(s.cache, s.invocations[id].phase.promise)
      then
        var i := s.invocations[id];
        var renewed := TokenFor(s.cache, i.phase.promise, i.capability);
        if renewed.Some? && renewed != i.phase.stale then Retry(s, id, i, config)
        else Put(s, id, i.(phase := Finished))
      else s
  }

  function Run(steps: seq<Step>): System {
    if steps == [] then START else Exec(Run(steps[..|steps| - 1]), steps[|steps| - 1])
  }

  // ----- the invariant of all runs -----

  function PostedCount(promises: seq<Promise>): nat {
    if promises == [] then 0
    else PostedCount(promises[..|promises| - 1]) + if promises[|promises| - 1].progress.Created? then 0 else 1
  }

  lemma {:induction false} PostedCountUpdate(promises: seq<Promise>, p: nat, progress: Progress)
    requires p < |promises| && !progress.Created?
    ensures PostedCount(promises[p := promises[p].(progress := progress)]) ==
            PostedCount(promises) + if promises[p].progress.Created? then 1 else 0
    decreases |promises|
  {
    var n := |promises| - 1;
    var updated := promises[p := promises[p].(progress := progress)];
    if p == n {
      assert updated[..n] == promises[..n];
    } else {
      assert updated[..n] == promises[..n][p := promises[p].(progress := progress)];
      PostedCountUpdate(promises[..n], p, progress);
    }
  }

  lemma {:induction false} PostedCountBound(promises: seq<Promise>)
    ensures PostedCount(promises) <= |promises|
    decreases |promises|
  {
    if promises != [] {
      PostedCountBound(promises[..|promises| - 1]);
    }
  }

  /** Every promise was cached once; each left the cache by a clear or by an overwrite. */
  predicate Counted(s: System) {
    && |s.cache.promises| == s.clears + s.replacements + (if s.cache.slot.Some? then 1 else 0)
    && s.posts == PostedCount(s.cache.promises)
  }

  /** The cached promise is one made for its key and has not failed; a promise still under way is
      cached unless another key overwrote it. */
  predicate WellCached(s: System) {
    && (s.cache.slot.Some? ==>
          var p := s.cache.slot.value.promise;
          && p < |s.cache.promises| && s.cache.promises[p].key == s.cache.slot.value.key
          && (s.cache.promises[p].progress.Settled? ==> s.cache.promises[p].progress.ok))
    && (forall p: nat | p < |s.cache.promises| && !s.cache.promises[p].progress.Settled? ::
          Holds(s.cache, Some(p)) || p in s.displaced)
    && |s.displaced| <= s.replacements
  }

  predicate Sound(c: Cache, i: Invocation) {
    match i.phase
    case AwaitingTokens(p, retried) => (p.Some? ==> p.value < |c.promises|) && i.fetches == if retried then 1 else 0
    case AwaitingRoute(p, _, retried) => Ready(c, p) && i.fetches == if retried then 2 else 1
    case AwaitingFresh(p, _) => (p.Some? ==> p.value < |c.promises|) && i.fetches == 1
    case Finished => i.fetches <= 2
  }

  predicate SoundInvocations(s: System) {
    forall id <- s.invocations :: Sound(s.cache, s.invocations[id])
  }

  predicate Invariant(s: System) {
    Counted(s) && WellCached(s) && SoundInvocations(s)
  }

  /** Promises are never lost or unsettled. */
  predicate Advances(c: Cache, d: Cache) {
    && |c.promises| <= |d.promises|
    && forall p: nat | p < |c.promises| && c.promises[p].progress.Settled? :: d.promises[p] == c.promises[p]
  }

  lemma SoundAdvances(c: Cache, d: Cache, i: Invocation)
    requires Sound(c, i) && Advances(c, d)
    ensures Sound(d, i)
  {
  }

  lemma EnsureKeeps(s: System, config: Config)
    requires Invariant(s)
    ensures Invariant(Ensure(s, config))
    ensures Advances(s.cache, Ensure(s, config).cache)
    ensures var promise := EnsuredPromise(s.cache, config);
            promise.Some? ==> promise.value < |Ensure(s, config).cache.promises|
    ensures Ensure(s, config).invocations == s.invocations
  {
    var t := Ensure(s, config);
    if t.cache != s.cache {
      assert t.cache.promises[..|s.cache.promises|] == s.cache.promises;
    }
    forall id | id in s.invocations ensures Sound(t.cache, s.invocations[id]) {
      SoundAdvances(s.cache, t.cache, s.invocations[id]);
    }
  }

  lemma DropKeeps(s: System, p: Option<nat>)
    requires Invariant(s) && Ready(s.cache, p)
    ensures Invariant(Drop(s, p))
  {
    var t := Drop(s, p);
    assert t.cache.promises == s.cache.promises;
    forall id | id in s.invocations ensures Sound(t.cache, s.invocations[id]) {
      SoundAdvances(s.cache, t.cache, s.invocations[id]);
    }
  }

  lemma PutKeeps(s: System, id: nat, i: Invocation)
    requires Invariant(s) && Sound(s.cache, i)
    ensures Invariant(Put(s, id, i))
  {
  }

  lemma RetryKeeps(s: System, id: nat, i: Invocation, config: Config)
    requires Invariant(s) && i.fetches == 1
    ensures Invariant(Retry(s, id, i, config))
  {
    EnsureKeeps(s, config);
    var phase := AwaitingTokens(EnsuredPromise(s.cache, config), true);
    PutKeeps(Ensure(s, config), id, i.(config := config, phase := phase));
  }

  lemma AnsweredKeeps(s: System, id: nat, i: Invocation, reply: Reply, config: Config)
    requires Invariant(s) && i.phase.AwaitingRoute? && Sound(s.cache, i)
    ensures Invariant(Answered(s, id, i, reply, config))
  {
    DropKeeps(s, i.phase.promise);
    var dropped := Drop(s, i.phase.promise);
    if reply.CapabilityDenied? && !i.phase.retried {
      RetryKeeps(dropped, id, i, config);
    } else if reply.PermissionDenied? && !i.phase.retried {
      EnsureKeeps(dropped, i.config);
      PutKeeps(Ensure(dropped, i.config), id,
               i.(phase := AwaitingFresh(EnsuredPromise(dropped.cache, i.config), i.phase.token)));
    } else {
      PutKeeps(s, id, i.(phase := Finished));
    }
  }

  lemma PostKeeps(s: System, p: nat)
    requires Invariant(s)
    ensures Invariant(Exec(s, Post(p)))
  {
    var t := Exec(s, Post(p));
    if t != s {
      PostedCountUpdate(s.cache.promises, p, Posted);
      forall id | id in s.invocations ensures Sound(t.cache, s.invocations[id]) {
        SoundAdvances(s.cache, t.cache, s.invocations[id]);
      }
    }
  }

  lemma SettleKeeps(s: System, p: nat, reply: Option<Tokens>)
    requires Invariant(s)
    ensures Invariant(Exec(s, Settle(p, reply)))
  {
    var t := Exec(s, Settle(p, reply));
    if p < |s.cache.promises| && s.cache.promises[p].progress.Posted? {
      PostedCountUpdate(s.cache.promises, p, t.cache.promises[p].progress);
      forall id | id in s.invocations ensures Sound(t.cache, s.invocations[id]) {
        SoundAdvances(s.cache, t.cache, s.invocations[id]);
      }
    }
  }

  lemma StepKeeps(s: System, step: Step)
    requires Invariant(s)
    ensures Invariant(Exec(s, step))
  {
    hide Invariant;
    match step
    case Begin(id, capability, config) =>
      if id !in s.invocations {
        EnsureKeeps(s, config);
        PutKeeps(Ensure(s, config), id,
                 Invocation(capability, config, AwaitingTokens(EnsuredPromise(s.cache, config), false), 0));
      }
    case OpenStream(config) =>
      EnsureKeeps(s, config);
    case Post(p) =>
      PostKeeps(s, p);
    case Settle(p, reply) =>
      SettleKeeps(s, p, reply);
    case SendRoute(id) =>
      SendRouteKeeps(s, id);
    case Answer(id, reply, config) =>
      if id in s.invocations && s.invocations[id].phase.AwaitingRoute? {
        InvocationSound(s, id);
        AnsweredKeeps(s, id, s.invocations[id], reply, config);
      }
    case Compare(id, config) =>
      CompareKeeps(s, id, config);
  }

  lemma InvocationSound(s: System, id: nat)
    requires Invariant(s) && id in s.invocations
    ensures Sound(s.cache, s.invocations[id])
  {
  }

  lemma SendRouteKeeps(s: System, id: nat)
    requires Invariant(s)
    ensures Invariant(Exec(s, SendRoute(id)))
  {
    if id in s.invocations && s.invocations[id].phase.AwaitingTokens?
       && Ready(s.cache, s.invocations[id].phase.promise)
    {
      PutKeeps(s, id, Exec(s, SendRoute(id)).invocations[id]);
    }
  }

  lemma CompareKeeps(s: System, id: nat, config: Config)
    requires Invariant(s)
    ensures Invariant(Exec(s, Compare(id, config)))
  {
    if id in s.invocations && s.invocations[id].phase.AwaitingFresh?
       && Ready(s.cache, s.invocations[id].phase.promise)
    {
      var i := s.invocations[id];
      RetryKeeps(s, id, i, config);
      PutKeeps(s, id, i.(phase := Finished));
    }
  }

  lemma {:induction false} RunInvariant(steps: seq<Step>)
    ensures Invariant(Run(steps))
    decreases |steps|
  {
    if steps != [] {
      RunInvariant(steps[..|steps| - 1]);
      StepKeeps(Run(steps[..|steps| - 1]), steps[|steps| - 1]);
    }
  }

  // ----- the protocol's promises -----

  /** Bootstrap requests number at most one more than the clears and overwrites; a cached promise
      that has settled has succeeded. */
  lemma BootstrapsBounded(steps: seq<Step>)
    ensures var s := Run(steps);
            s.posts <= |s.cache.promises| <= 1 + s.clears + s.replacements
    ensures var s := Run(steps);
            s.cache.slot.Some? ==>
              var p := s.cache.slot.value.promise;
              p < |s.cache.promises| && (s.cache.promises[p].progress.Settled? ==> s.cache.promises[p].progress.ok)
  {
    RunInvariant(steps);
    PostedCountBound(Run(steps).cache.promises);
  }

  /** No invocation sends its route more than twice. */
  lemma AtMostTwoFetches(steps: seq<Step>, id: nat)
    requires id in Run(steps).invocations
    ensures Run(steps).invocations[id].fetches <= 2
  {
    RunInvariant(steps);
    InvocationSound(Run(steps), id);
  }

  /** A bootstrap settles with what it was granted; a failure brings no tokens and leaves the cache. */
  lemma SettlementOutcome(s: System, p: nat, granted: Option<Tokens>)
    requires p < |s.cache.promises| && s.cache.promises[p].progress.Posted?
    ensures var t := Exec(s, Settle(p, granted));
            && t.cache.promises == s.cache.promises[p := t.cache.promises[p]]
            && t.cache.promises[p].key == s.cache.promises[p].key
            && t.cache.promises[p].progress ==
               Settled(granted != None, if granted == None then map[] else granted.value)
            && t.cache.slot == (if granted == None && Holds(s.cache, Some(p)) then None else s.cache.slot)
            && t.invocations == s.invocations
  {
  }

  /** The tokens an invocation waits for: none without a key, and else a promise made for the key of the
      configuration, cached, and not the one that was denied. */
  ghost predicate Renews(s: System, config: Config, promise: Option<nat>, denied: Option<nat>) {
    && (promise.None? <==> KeyOf(config).None?)
    && (promise.Some? ==>
          && promise.value < |s.cache.promises| && Some(s.cache.promises[promise.value].key) == KeyOf(config)
          && Holds(s.cache, promise) && promise != denied)
  }

  lemma DroppedIsRenewed(s: System, denied: Option<nat>, config: Config)
    requires Invariant(s) && Ready(s.cache, denied)
    ensures var dropped := Drop(s, denied);
            Renews(Ensure(dropped, config), config, EnsuredPromise(dropped.cache, config), denied)
  {
  }

  /** A route denied for its capability is sent again, once: the invocation starts over with the configuration as it
      is now, and with tokens that are not the denied ones. */
  lemma DeniedIsRetried(steps: seq<Step>, id: nat, config: Config)
    requires id in Run(steps).invocations && Run(steps).invocations[id].phase.AwaitingRoute?
    ensures var s, t := Run(steps), Run(steps + [Answer(id, CapabilityDenied, config)]);
            var i := s.invocations[id];
            id in t.invocations && var j := t.invocations[id];
            && j.capability == i.capability && j.fetches == i.fetches
            && (i.phase.retried ==> j.phase.Finished? && t.cache == s.cache)
            && (!i.phase.retried ==>
                  && j.config == config && j.phase.AwaitingTokens? && j.phase.retried
                  && Renews(t, config, j.phase.promise, i.phase.promise))
  {
    var step := Answer(id, CapabilityDenied, config);
    RunInvariant(steps);
    assert (steps + [step])[..|steps|] == steps;
    var s := Run(steps);
    assert Run(steps + [step]) == Exec(s, step);
    hide Run;
    InvocationSound(s, id);
    DroppedIsRenewed(s, s.invocations[id].phase.promise, config);
    hide Invariant, Renews;
  }

  /** A route the host forbids waits for tokens that are not the ones it was sent with, and remembers its own. */
  lemma ForbiddenAsksAnew(steps: seq<Step>, id: nat, config: Config)
    requires id in Run(steps).invocations && Run(steps).invocations[id].phase.AwaitingRoute?
    ensures var s, t := Run(steps), Run(steps + [Answer(id, PermissionDenied, config)]);
            var i := s.invocations[id];
            id in t.invocations && var j := t.invocations[id];
            && j.capability == i.capability && j.config == i.config && j.fetches == i.fetches
            && (i.phase.retried ==> j.phase.Finished? && t.cache == s.cache)
            && (!i.phase.retried ==>
                  && j.phase.AwaitingFresh? && j.phase.stale == i.phase.token
                  && Renews(t, i.config, j.phase.promise, i.phase.promise))
  {
    var step := Answer(id, PermissionDenied, config);
    RunInvariant(steps);
    assert (steps + [step])[..|steps|] == steps;
    var s := Run(steps);
    assert Run(steps + [step]) == Exec(s, step);
    hide Run;
    InvocationSound(s, id);
    DroppedIsRenewed(s, s.invocations[id].phase.promise, s.invocations[id].config);
    hide Invariant, Renews;
  }

  /** Any other answer is the last. */
  lemma OtherAnswerEnds(s: System, id: nat, config: Config)
    requires id in s.invocations && s.invocations[id].phase.AwaitingRoute?
    ensures Exec(s, Answer(id, Other, config)) ==
            s.(invocations := s.invocations[id := s.invocations[id].(phase := Finished)])
  {
  }

  /** The settled promise brought this token for the capability. */
  ghost predicate Brings(c: Cache, promise: Option<nat>, capability: string, token: string) {
    && promise.Some? && promise.value < |c.promises| && c.promises[promise.value].progress.Settled?
    && c.promises[promise.value].progress.ok && token != ""
    && capability in c.promises[promise.value].progress.tokens
    && c.promises[promise.value].progress.tokens[capability] == token
  }

  /** Failed bootstraps bring nothing, so a token comes from one that succeeded. */
  predicate FailedAreEmpty(c: Cache) {
    forall p: nat | p < |c.promises| ::
      var progress := c.promises[p].progress;
      progress.Settled? && !progress.ok ==> progress.tokens == map[]
  }

  lemma EnsureKeepsFailures(c: Cache, config: Config)
    requires FailedAreEmpty(c)
    ensures FailedAreEmpty(Ensured(c, config))
  {
  }

  lemma StepKeepsFailures(s: System, step: Step)
    requires FailedAreEmpty(s.cache)
    ensures FailedAreEmpty(Exec(s, step).cache)
  {
    match step {
      case Begin(_, _, config) => EnsureKeepsFailures(s.cache, config);
      case OpenStream(config) => EnsureKeepsFailures(s.cache, config);
      case Post(p) =>
      case Settle(p, reply) =>
      case SendRoute(id) =>
      case Answer(id, reply, config) =>
        if id in s.invocations && s.invocations[id].phase.AwaitingRoute? {
          var dropped := Dropped(s.cache, s.invocations[id].phase.promise);
          assert dropped.promises == s.cache.promises;
          EnsureKeepsFailures(dropped, config);
          EnsureKeepsFailures(dropped, s.invocations[id].config);
        }
        hide FailedAreEmpty, Ensured, EnsuredPromise, Dropped;
      case Compare(_, config) =>
        EnsureKeepsFailures(s.cache, config);
        hide FailedAreEmpty, Ensured, EnsuredPromise, TokenFor;
    }
  }

  lemma {:induction false} FailuresStayEmpty(steps: seq<Step>)
    ensures FailedAreEmpty(Run(steps).cache)
    decreases |steps|
  {
    hide Exec, FailedAreEmpty;
    if steps != [] {
      FailuresStayEmpty(steps[..|steps| - 1]);
      StepKeepsFailures(Run(steps[..|steps| - 1]), steps[|steps| - 1]);
    } else {
      StartHasNone();
    }
  }

  lemma StartHasNone()
    ensures FailedAreEmpty(START.cache)
  {
  }

  lemma TokenIsBrought(c: Cache, promise: Option<nat>, capability: string)
    requires Ready(c, promise) && FailedAreEmpty(c)
    ensures forall token :: TokenFor(c, promise, capability) == Some(token) <==> Brings(c, promise, capability, token)
  {
  }

  /** When its tokens have settled, the route is sent with the token they brought for its capability. */
  lemma SentWithToken(steps: seq<Step>, id: nat)
    requires id in Run(steps).invocations && Run(steps).invocations[id].phase.AwaitingTokens?
    requires Ready(Run(steps).cache, Run(steps).invocations[id].phase.promise)
    ensures var s, t := Run(steps), Run(steps + [SendRoute(id)]);
            var i := s.invocations[id];
            id in t.invocations && var j := t.invocations[id];
            && t.cache == s.cache && j.phase.AwaitingRoute? && j.fetches == i.fetches + 1
            && j.phase.promise == i.phase.promise && j.phase.retried == i.phase.retried
            && forall token :: j.phase.token == Some(token) <==> Brings(s.cache, i.phase.promise, i.capability, token)
  {
    FailuresStayEmpty(steps);
    assert (steps + [SendRoute(id)])[..|steps|] == steps;
    assert Run(steps + [SendRoute(id)]) == Exec(Run(steps), SendRoute(id));
    var s := Run(steps);
    hide Run;
    TokenIsBrought(s.cache, s.invocations[id].phase.promise, s.invocations[id].capability);
    hide TokenFor, Brings, FailedAreEmpty;
  }

  /** A forbidden route is sent again exactly when the new tokens bring another token for its capability. */
  lemma RetriedWithAnotherToken(steps: seq<Step>, id: nat, config: Config)
    requires id in Run(steps).invocations && Run(steps).invocations[id].phase.AwaitingFresh?
    requires Ready(Run(steps).cache, Run(steps).invocations[id].phase.promise)
    ensures var s, t := Run(steps), Run(steps + [Compare(id, config)]);
            var i := s.invocations[id];
            id in t.invocations && var j := t.invocations[id];
            if exists token :: Brings(s.cache, i.phase.promise, i.capability, token) && i.phase.stale != Some(token)
            then
              && j.capability == i.capability && j.config == config && j.fetches == i.fetches
              && j.phase.AwaitingTokens? && j.phase.retried && Renews(t, config, j.phase.promise, None)
            else j.phase.Finished? && t.cache == s.cache && j.fetches == i.fetches
  {
    FailuresStayEmpty(steps);
    RunInvariant(steps);
    assert (steps + [Compare(id, config)])[..|steps|] == steps;
    var s := Run(steps);
    assert Run(steps + [Compare(id, config)]) == Exec(s, Compare(id, config));
    hide Run;
    DroppedIsRenewed(s, None, config);
    assert Drop(s, None) == s;
    hide Invariant, Renews;
    var i := s.invocations[id];
    TokenIsBrought(s.cache, i.phase.promise, i.capability);
    hide TokenFor, Brings, FailedAreEmpty, Ensure, EnsuredPromise, Drop, KeyOf;
  }

  predicate UnderWay(s: System, p: nat) {
    p < |s.cache.promises| && !s.cache.promises[p].progress.Settled?
  }

  /** Bootstraps under way: the cached one, and at most one for each time another key overwrote the
      cache.  With a single key there is at most one. */
  lemma InFlightBounded(steps: seq<Step>)
    ensures var s := Run(steps);
            |set p: nat | p < |s.cache.promises| && UnderWay(s, p)| <= 1 + s.replacements
    ensures var s := Run(steps);
            s.replacements == 0 ==> forall p: nat | UnderWay(s, p) :: Holds(s.cache, Some(p))
  {
    RunInvariant(steps);
    var s := Run(steps);
    hide Run;
    var underWay := set p: nat | p < |s.cache.promises| && UnderWay(s, p);
    var cached := if s.cache.slot.Some? then {s.cache.slot.value.promise} else {};
    assert underWay <= cached + s.displaced;
    Subset(underWay, cached + s.displaced);
    assert |cached + s.displaced| <= |cached| + |s.displaced|;
  }

  lemma {:induction false} Subset(a: set<nat>, b: set<nat>)
    requires a <= b
    ensures |a| <= |b|
    decreases |a|
  {
    if a != {} {
      var x :| x in a;
      Subset(a - {x}, b - {x});
    }
  }

  function ConfigOf(s: System, step: Step): Option<Config> {
    match step
    case Begin(_, _, config) => Some(config)
    case OpenStream(config) => Some(config)
    case Answer(id, reply, config) =>
      if reply.PermissionDenied? && id in s.invocations then Some(s.invocations[id].config) else Some(config)
    case Compare(_, config) => Some(config)
    case _ => None
  }

  /** The cached promise leaves the cache only by its own failure, by the denial of a route that was
      sent with it, or when a configuration with another key is used. */
  lemma DroppedByOwnerOnly(s: System, step: Step, p: nat)
    requires Holds(s.cache, Some(p)) && !Holds(Exec(s, step).cache, Some(p))
    ensures match step
            case Settle(q, reply) => q == p && reply.None?
            case Answer(id, reply, _) =>
              || (id in s.invocations && s.invocations[id].phase.AwaitingRoute? && !s.invocations[id].phase.retried
                  && s.invocations[id].phase.promise == Some(p) && !reply.Other?)
              || KeyOf(ConfigOf(s, step).value) != Some(s.cache.slot.value.key)
            case _ => ConfigOf(s, step).Some? && KeyOf(ConfigOf(s, step).value) != Some(s.cache.slot.value.key)
  {
  }

  function ExecAll(s: System, steps: seq<Step>): System
    decreases |steps|
  {
    if steps == [] then s else ExecAll(Exec(s, steps[0]), steps[1..])
  }

  /** The promise is cached after each of the steps. */
  predicate StaysCached(s: System, steps: seq<Step>, p: nat)
    decreases |steps|
  {
    steps == [] || (Holds(Exec(s, steps[0]).cache, Some(p)) && StaysCached(Exec(s, steps[0]), steps[1..], p))
  }

  /** While a promise stays cached it stays cached for the same key, and no promise is lost. */
  lemma StepKeepsSlot(s: System, step: Step, p: nat, key: Key)
    requires s.cache.slot == Some(Slot(key, p)) && p < |s.cache.promises| && Holds(Exec(s, step).cache, Some(p))
    ensures Exec(s, step).cache.slot == Some(Slot(key, p)) && p < |Exec(s, step).cache.promises|
  {
  }

  /** Until the cached promise is dropped, every invocation with its key awaits that very promise,
      whatever happens in between. */
  lemma {:induction false} LivePromiseShared(
    s: System, steps: seq<Step>, p: nat, key: Key, id: nat, capability: string, config: Config)
    requires s.cache.slot == Some(Slot(key, p)) && p < |s.cache.promises| && StaysCached(s, steps, p)
    requires KeyOf(config) == Some(key) && id !in ExecAll(s, steps).invocations
    ensures var t := ExecAll(s, steps + [Begin(id, capability, config)]);
            t.cache == ExecAll(s, steps).cache && t.cache.slot == Some(Slot(key, p))
            && id in t.invocations && t.invocations[id].phase == AwaitingTokens(Some(p), false)
    decreases |steps|
  {
    var begin := Begin(id, capability, config);
    if steps == [] {
      assert ([begin])[1..] == [];
      assert steps + [begin] == [begin];
    } else {
      StepKeepsSlot(s, steps[0], p, key);
      hide Exec;
      LivePromiseShared(Exec(s, steps[0]), steps[1..], p, key, id, capability, config);
      assert (steps + [begin])[1..] == steps[1..] + [begin];
    }
  }
}
