/** The decider chain: configured tiers in order, authority masks, tail default deny. */
module Chain {
  import opened AuthTypes
  import opened AuthTables
  import Policy
  import opened Tiers

  /** A registered tier; a foreign one stands for a script or any other implementation. */
  datatype Tier = CacheTier | PolicyTier | HumanTier | ForeignTier(name: string)
  {
    function Name(): string {
      match this
      case CacheTier => "cache"
      case PolicyTier => "policy"
      case HumanTier => "human"
      case ForeignTier(name) => name
    }
  }

  /** What the outside contributes to one request: clock, fresh id, failures, and
      foreign answers (a foreign tier without one panics). */
  datatype Env = Env(now: real, freshId: string, cacheFails: bool, policyFails: bool, humanFault: Fault,
                     foreign: map<string, Decision>)

  /** For each decision kind, the actions a tier may emit it for. */
  datatype TierMask = TierMask(allow: seq<string>, allowNarrowed: seq<string>, deny: seq<string>)
  {
    predicate Permits(decision: Decision, action: string) {
      match decision
      case Allow => "*" in allow || action in allow
      case AllowNarrowed(_) => "*" in allowNarrowed || action in allowNarrowed
      case Deny(_) => "*" in deny || action in deny
      case Escalate => true
    }
  }

  datatype Decided = Decided(decision: Decision, decidedBy: string)

  /** A `_rsntr` value: absent, not parseable, or parsed. */
  datatype Setting<+T> = Missing | Unparseable | Parsed(value: T)

  datatype Config = Config(names: seq<string>, masks: map<string, TierMask>)

  /** A broken setting empties the chain. */
  function ReadConfig(authChain: Setting<seq<string>>, authMasks: Setting<map<string, TierMask>>): Config {
    if authChain.Unparseable? || authMasks.Unparseable? then Config([], map[])
    else Config(if authChain.Parsed? then authChain.value else [], if authMasks.Parsed? then authMasks.value else map[])
  }

  const DEFAULT_DENY_REASON := "no decider in the chain allowed the request"

  const TAIL := Decided(Deny(DEFAULT_DENY_REASON), "default")

  ghost function TierAnswer(tier: Tier, tables: Tables, request: Request, env: Env): (Tables, Decision) {
    match tier
    case CacheTier => (tables, CacheAnswer(tables, request, env.now, env.cacheFails))
    case PolicyTier => (tables, Policy.PolicyAnswer(if env.policyFails then None else Some(tables.policy), request))
    case HumanTier => HumanAnswer(tables, request, env.freshId, env.humanFault)
    case ForeignTier(name) => (tables, if name in env.foreign then env.foreign[name] else Escalate)
  }

  predicate Permitted(masks: map<string, TierMask>, name: string, decision: Decision, action: string) {
    name in masks ==> masks[name].Permits(decision, action)
  }

  /** The chain's answer and the tables it leaves: every tier asked may have written. */
  ghost function ChainAnswer(tiers: map<string, Tier>, config: Config, tables: Tables, request: Request, env: Env): (Tables, Decided)
    decreases |config.names|
  {
    if config.names == [] then (tables, TAIL)
    else
      var name, rest := config.names[0], config.(names := config.names[1..]);
      if name !in tiers then ChainAnswer(tiers, rest, tables, request, env)
      else
        var (next, decision) := TierAnswer(tiers[name], tables, request, env);
        if decision == Escalate || !Permitted(config.masks, name, decision, request.action)
        then ChainAnswer(tiers, rest, next, request, env)
        else (next, Decided(decision, name))
  }

  /** Under its own name, a tier replaces any earlier one. */
  function Registered(tiers: map<string, Tier>, tier: Tier): map<string, Tier> {
    tiers[tier.Name() := tier]
  }

  /** The built-in tiers; `"script"` is there when the feature is on. */
  function BuiltinTiers(script: bool): map<string, Tier> {
    map["cache" := CacheTier, "policy" := PolicyTier, "human" := HumanTier]
    + if script then map["script" := ForeignTier("script")] else map[]
  }

  class Chain {
    var tiers: map<string, Tier>

    constructor ()
      ensures tiers == map[]
    {
      tiers := map[];
    }

    method Register(tier: Tier)
      modifies this
      ensures tiers == Registered(old(tiers), tier)
    {
      tiers := Registered(tiers, tier);
    }

    method Decide(conn: Connection, authChain: Setting<seq<string>>, authMasks: Setting<map<string, TierMask>>,
                  request: Request, env: Env)
        returns (decided: Decided)
      modifies conn
      ensures (conn.View(), decided)
              == ChainAnswer(tiers, ReadConfig(authChain, authMasks), old(conn.View()), request, env)
    {
      var config := ReadConfig(authChain, authMasks);
      var names, masks := config.names, config.masks;
      for i := 0 to |names|
        invariant tiers == old(tiers)
        invariant ChainAnswer(tiers, config, old(conn.View()), request, env)
                  == ChainAnswer(tiers, Config(names[i..], masks), conn.View(), request, env)
      {
        var name := names[i];
        assert names[i..][1..] == names[i + 1..];
        if name !in tiers {
          continue;
        }
        var decision := AskTier(tiers[name], conn, request, env);
        if decision == Escalate {
          continue;
        }
        var permitted := name !in masks || masks[name].Permits(decision, request.action);
        if !permitted {
          continue;
        }
        return Decided(decision, name);
      }
      return TAIL;
    }
  }

  /** `with_builtin_tiers`. */
  method WithBuiltinTiers(script: bool) returns (chain: Chain)
    ensures fresh(chain) && chain.tiers == BuiltinTiers(script)
  {
    chain := new Chain();
    chain.Register(CacheTier);
    chain.Register(PolicyTier);
    if script {
      chain.Register(ForeignTier("script"));
    }
    chain.Register(HumanTier);
  }

  method AskTier(tier: Tier, conn: Connection, request: Request, env: Env) returns (decision: Decision)
    modifies conn
    ensures (conn.View(), decision) == TierAnswer(tier, old(conn.View()), request, env)
  {
    match tier
    case CacheTier => decision := CacheDecide(conn, request, env.now, env.cacheFails);
    case PolicyTier => decision := Policy.Decide(if env.policyFails then None else Some(conn.policy), request);
    case HumanTier => decision := HumanDecide(conn, request, env.freshId, env.humanFault);
    case ForeignTier(name) => decision := if name in env.foreign then env.foreign[name] else Escalate;
  }

  // ----- what the chain guarantees -----

  /** The tables after the first `k` configured tiers were asked. */
  ghost function TablesAfter(tiers: map<string, Tier>, names: seq<string>, k: nat, tables: Tables, request: Request, env: Env): Tables
    requires k <= |names|
    decreases k
  {
    if k == 0 then tables
    else
      var before := TablesAfter(tiers, names, k - 1, tables, request, env);
      if names[k - 1] in tiers then TierAnswer(tiers[names[k - 1]], before, request, env).0 else before
  }

  /** The answer the `k`-th configured tier may give with authority. */
  ghost predicate Speaks(tiers: map<string, Tier>, config: Config, k: nat, tables: Tables, request: Request, env: Env)
    requires k < |config.names|
  {
    var name := config.names[k];
    && name in tiers
    && var decision := TierAnswer(tiers[name], TablesAfter(tiers, config.names, k, tables, request, env), request, env).1;
       decision != Escalate && Permitted(config.masks, name, decision, request.action)
  }

  /** What the `k`-th configured tier says. */
  ghost function Said(tiers: map<string, Tier>, config: Config, k: nat, tables: Tables, request: Request, env: Env): Decided
    requires k < |config.names| && config.names[k] in tiers
  {
    Decided(TierAnswer(tiers[config.names[k]], TablesAfter(tiers, config.names, k, tables, request, env), request, env).1,
            config.names[k])
  }

  /** What the chain answers from its `i`-th tier on. */
  ghost function Rest(tiers: map<string, Tier>, config: Config, i: nat, tables: Tables, request: Request, env: Env): Decided
    requires i <= |config.names|
  {
    ChainAnswer(tiers, config.(names := config.names[i..]), TablesAfter(tiers, config.names, i, tables, request, env), request, env).1
  }

  lemma RestStep(tiers: map<string, Tier>, config: Config, i: nat, tables: Tables, request: Request, env: Env)
    requires i < |config.names|
    ensures Rest(tiers, config, i, tables, request, env) ==
            if Speaks(tiers, config, i, tables, request, env) then Said(tiers, config, i, tables, request, env)
            else Rest(tiers, config, i + 1, tables, request, env)
  {
    var here := config.(names := config.names[i..]);
    assert here.names[0] == config.names[i];
    assert here.(names := here.names[1..]) == config.(names := config.names[i + 1..]);
  }

  lemma {:induction false} Silence(tiers: map<string, Tier>, config: Config, i: nat, tables: Tables, request: Request, env: Env)
    requires i <= |config.names|
    requires forall k :: i <= k < |config.names| ==> !Speaks(tiers, config, k, tables, request, env)
    ensures Rest(tiers, config, i, tables, request, env) == TAIL
    decreases |config.names| - i
  {
    if i < |config.names| {
      RestStep(tiers, config, i, tables, request, env);
      Silence(tiers, config, i + 1, tables, request, env);
    }
  }

  lemma {:induction false} SpeakerFrom(tiers: map<string, Tier>, config: Config, i: nat, k: nat, tables: Tables, request: Request, env: Env)
    requires i <= k < |config.names| && Speaks(tiers, config, k, tables, request, env)
    requires forall j :: i <= j < k ==> !Speaks(tiers, config, j, tables, request, env)
    ensures Rest(tiers, config, i, tables, request, env) == Said(tiers, config, k, tables, request, env)
    decreases k - i
  {
    RestStep(tiers, config, i, tables, request, env);
    if i < k {
      SpeakerFrom(tiers, config, i + 1, k, tables, request, env);
    }
  }

  lemma {:induction false} NeverAbstains(tiers: map<string, Tier>, config: Config, i: nat, tables: Tables, request: Request, env: Env)
    requires i <= |config.names|
    ensures Rest(tiers, config, i, tables, request, env).decision != Escalate
    decreases |config.names| - i
  {
    if i < |config.names| {
      RestStep(tiers, config, i, tables, request, env);
      NeverAbstains(tiers, config, i + 1, tables, request, env);
    }
  }

  /** First tier that speaks wins; when none does, the tail denies. Never an abstention. */
  lemma FirstSpeakerDecides(tiers: map<string, Tier>, config: Config, tables: Tables, request: Request, env: Env)
    ensures var decided := ChainAnswer(tiers, config, tables, request, env).1;
            && decided.decision != Escalate
            && ((forall k :: 0 <= k < |config.names| ==> !Speaks(tiers, config, k, tables, request, env))
                ==> decided == TAIL)
            && forall k :: 0 <= k < |config.names|
                 && Speaks(tiers, config, k, tables, request, env)
                 && (forall j :: 0 <= j < k ==> !Speaks(tiers, config, j, tables, request, env))
                 ==> decided == Said(tiers, config, k, tables, request, env)
  {
    assert config.(names := config.names[0..]) == config;
    NeverAbstains(tiers, config, 0, tables, request, env);
    if forall k :: 0 <= k < |config.names| ==> !Speaks(tiers, config, k, tables, request, env) {
      Silence(tiers, config, 0, tables, request, env);
    }
    forall k | 0 <= k < |config.names|
      && Speaks(tiers, config, k, tables, request, env)
      && (forall j :: 0 <= j < k ==> !Speaks(tiers, config, j, tables, request, env))
      ensures ChainAnswer(tiers, config, tables, request, env).1 == Said(tiers, config, k, tables, request, env)
    {
      SpeakerFrom(tiers, config, 0, k, tables, request, env);
    }
  }

  /** Registering a tier changes the answers of chains that name it, and of no other. */
  lemma {:induction false} UnnamedTierIsNotAsked(tiers: map<string, Tier>, tier: Tier, config: Config, tables: Tables,
                                                 request: Request, env: Env)
    requires tier.Name() !in config.names
    ensures ChainAnswer(Registered(tiers, tier), config, tables, request, env) == ChainAnswer(tiers, config, tables, request, env)
    decreases |config.names|
  {
    if config.names != [] {
      var name, rest := config.names[0], config.(names := config.names[1..]);
      assert name in config.names;
      var next := if name in tiers then TierAnswer(tiers[name], tables, request, env).0 else tables;
      UnnamedTierIsNotAsked(tiers, tier, rest, next, request, env);
    }
  }

  /** So the script feature matters only to chains that name `"script"`. */
  lemma ScriptFeature(config: Config, tables: Tables, request: Request, env: Env)
    requires "script" !in config.names
    ensures ChainAnswer(BuiltinTiers(true), config, tables, request, env) == ChainAnswer(BuiltinTiers(false), config, tables, request, env)
  {
    UnnamedTierIsNotAsked(BuiltinTiers(false), ForeignTier("script"), config, tables, request, env);
    assert Registered(BuiltinTiers(false), ForeignTier("script")) == BuiltinTiers(true);
  }

  /** An unparseable setting denies everything and writes nothing. */
  lemma BrokenConfigDenies(tiers: map<string, Tier>, authChain: Setting<seq<string>>, authMasks: Setting<map<string, TierMask>>,
                           tables: Tables, request: Request, env: Env)
    requires authChain.Unparseable? || authMasks.Unparseable? || authChain.Missing?
    ensures ChainAnswer(tiers, ReadConfig(authChain, authMasks), tables, request, env) == (tables, TAIL)
  {
  }

  // ----- masks and settings as read -----

  /** The actions a mask lists for this kind of answer, `*` for all. */
  predicate InList(list: seq<string>, action: string) {
    exists a :: a in list && (a == "*" || a == action)
  }

  /** A tier speaks exactly when it is registered, does not abstain, and its answer is of a kind its own mask, if it
      has one, lists the action for. */
  lemma SpeaksExactly(tiers: map<string, Tier>, names: seq<string>, masks: map<string, TierMask>, k: nat,
                      tables: Tables, request: Request, env: Env)
    requires k < |names|
    ensures var config := ReadConfig(Parsed(names), Parsed(masks));
            var name := names[k];
            && config.names == names
            && (Speaks(tiers, config, k, tables, request, env) <==>
                  && name in tiers
                  && var said := TierAnswer(tiers[name], TablesAfter(tiers, names, k, tables, request, env), request, env).1;
                     && said != Escalate
                     && (name in masks ==>
                           && (said.Allow? ==> InList(masks[name].allow, request.action))
                           && (said.AllowNarrowed? ==> InList(masks[name].allowNarrowed, request.action))
                           && (said.Deny? ==> InList(masks[name].deny, request.action))))
  {
  }

  /** Whatever a chain answers, its tail's denial apart, was said by a configured tier with that authority. */
  lemma AnswersWithAuthority(tiers: map<string, Tier>, names: seq<string>, masks: map<string, TierMask>,
                             tables: Tables, request: Request, env: Env)
    ensures var decided := ChainAnswer(tiers, ReadConfig(Parsed(names), Parsed(masks)), tables, request, env).1;
            || decided == Decided(Deny("no decider in the chain allowed the request"), "default")
            || exists k :: 0 <= k < |names| && decided.decidedBy == names[k] && names[k] in tiers
                 && decided.decision == TierAnswer(tiers[names[k]], TablesAfter(tiers, names, k, tables, request, env), request, env).1
                 && (names[k] in masks ==>
                       && (decided.decision.Allow? ==> InList(masks[names[k]].allow, request.action))
                       && (decided.decision.AllowNarrowed? ==> InList(masks[names[k]].allowNarrowed, request.action))
                       && (decided.decision.Deny? ==> InList(masks[names[k]].deny, request.action)))
  {
    var config := ReadConfig(Parsed(names), Parsed(masks));
    FirstSpeakerDecides(tiers, config, tables, request, env);
    if exists k :: 0 <= k < |names| && Speaks(tiers, config, k, tables, request, env) {
      var k := FirstSpeaker(tiers, config, tables, request, env);
      SpeaksExactly(tiers, names, masks, k, tables, request, env);
    }
  }

  lemma FirstSpeaker(tiers: map<string, Tier>, config: Config, tables: Tables, request: Request, env: Env) returns (k: nat)
    requires exists k :: 0 <= k < |config.names| && Speaks(tiers, config, k, tables, request, env)
    ensures k < |config.names| && Speaks(tiers, config, k, tables, request, env)
    ensures forall j :: 0 <= j < k ==> !Speaks(tiers, config, j, tables, request, env)
  {
    k := 0;
    while !Speaks(tiers, config, k, tables, request, env)
      invariant k < |config.names|
      invariant forall j :: 0 <= j < k ==> !Speaks(tiers, config, j, tables, request, env)
      invariant exists j :: k <= j < |config.names| && Speaks(tiers, config, j, tables, request, env)
      decreases |config.names| - k
    {
      k := k + 1;
    }
  }

  /** One tier with one kind of answer: given when its list has the action, or there is no mask for it. */
  lemma OneTier(tiers: map<string, Tier>, name: string, authMasks: Setting<map<string, TierMask>>, said: Decision,
                tables: Tables, request: Request, env: Env)
    requires name in tiers && TierAnswer(tiers[name], tables, request, env).1 == said && said != Escalate
    requires !authMasks.Unparseable?
    ensures var unmasked := authMasks.Missing? || name !in authMasks.value;
            var given := unmasked || match said
                                     case Allow => InList(authMasks.value[name].allow, request.action)
                                     case AllowNarrowed(_) => InList(authMasks.value[name].allowNarrowed, request.action)
                                     case Deny(_) => InList(authMasks.value[name].deny, request.action)
                                     case Escalate => true;
            ChainAnswer(tiers, ReadConfig(Parsed([name]), authMasks), tables, request, env).1
            == if given then Decided(said, name) else Decided(Deny("no decider in the chain allowed the request"), "default")
  {
    var config := ReadConfig(Parsed([name]), authMasks);
    assert config.names == [name] && config.(names := config.names[1..]).names == [];
  }

  /** Which tier answers under which name. */
  lemma BuiltinAnswers(tables: Tables, request: Request, env: Env)
    ensures var tiers := BuiltinTiers(true);
            && TierAnswer(tiers["cache"], tables, request, env) == (tables, CacheAnswer(tables, request, env.now, env.cacheFails))
            && TierAnswer(tiers["policy"], tables, request, env)
               == (tables, Policy.PolicyAnswer(if env.policyFails then None else Some(tables.policy), request))
            && TierAnswer(tiers["human"], tables, request, env) == HumanAnswer(tables, request, env.freshId, env.humanFault)
            && TierAnswer(tiers["script"], tables, request, env)
               == (tables, if "script" in env.foreign then env.foreign["script"] else Escalate)
  {
    var tiers := BuiltinTiers(true);
    assert tiers["cache"] == CacheTier && tiers["policy"] == PolicyTier;
    assert tiers["human"] == HumanTier && tiers["script"] == ForeignTier("script");
  }
}
