/** Worker modes: `ur.toml` is checked once into a configuration, and each launch resolves a mode
    name and an optional agent against it. TOML tables have no order, so their entries are visited
    in any order. */
module Modes {
  import opened Overlay

  datatype Agent = Claude | Codex | Agy

  datatype Strategy = Code | Design | Manual

  datatype Runtime = Container | Local

  datatype StrategyEntry = StrategyEntry(model: Option<string>, effort: Option<string>)

  datatype StrategyDefaults = StrategyDefaults(
    code: Option<StrategyEntry>, design: Option<StrategyEntry>, manual: Option<StrategyEntry>)

  datatype RawMode = RawMode(
    base: string, skills: seq<string>, model: Option<string>, effort: Option<string>, agent: Option<string>,
    runtime: Option<string>)

  /** The part of `ur.toml` that decides modes. A missing section is an empty one. */
  datatype Toml = Toml(
    agent: Option<string>, runtime: Option<string>, models: map<string, StrategyDefaults>, modes: map<string, RawMode>)

  datatype Config = Config(
    modes: map<string, seq<string>>,
    strategies: map<string, Strategy>,
    explicitModels: map<string, string>,
    explicitEfforts: map<string, string>,
    agents: map<string, Agent>,
    defaultAgent: Agent,
    modeRuntimes: map<string, Runtime>,
    defaultRuntime: Runtime,
    overrides: map<Agent, StrategyDefaults>)

  datatype Resolved = Resolved(strategy: Strategy, skills: seq<string>, model: string, effort: string, agent: Agent)

  // ---- agents and strategies ----

  function ParseAgent(s: string): Option<Agent> {
    if s == "claude" then Some(Claude) else if s == "codex" then Some(Codex) else if s == "agy" then Some(Agy) else None
  }

  function AgentName(a: Agent): (s: string)
    ensures ParseAgent(s) == Some(a)
  {
    match a
    case Claude => "claude"
    case Codex => "codex"
    case Agy => "agy"
  }

  function ParseRuntime(s: string): Option<Runtime> {
    if s == "container" then Some(Container) else if s == "local" then Some(Local) else None
  }

  function FromName(s: string): Option<Strategy> {
    if s == "code" then Some(Code)
    else if s == "design" then Some(Design)
    else if s == "manual" then Some(Manual)
    else None
  }

  predicate Supports(a: Agent, effort: string) {
    effort in ["low", "medium", "high", "xhigh", "max"] || (effort == "ultra" && a != Claude)
  }

  const DEFAULT_EFFORT: string := "medium"

  function DefaultModel(a: Agent, s: Strategy): string {
    match a
    case Claude => if s.Code? then "sonnet" else "opus"
    case Codex => if s.Code? then "gpt-5.6-terra" else "gpt-5.6-sol"
    case Agy => "gemini-3.8-flash"
  }

  function Common(): seq<string> {
    ["green", "cli-design", "reclaude", "writing-skills", "rag-docs", "address-feedback", "code-review", "brain",
     "brain:init"]
  }

  function DefaultSkills(s: Strategy): seq<string> {
    Common() + match s
    case Code => ["implement", "ship", "bacon", "systematic-debugging", "test-driven-development"]
    case Design => ["design", "dispatch"]
    case Manual => ["implement", "implement-agents", "ship", "bacon", "systematic-debugging",
      "test-driven-development", "design", "dispatch", "brain:dream", "brain:dream-init"]
  }

  const BUILTIN: set<string> := {"code", "design", "manual"}

  // ---- which files are accepted ----

  function EntryFor(d: StrategyDefaults, s: Strategy): Option<StrategyEntry> {
    match s
    case Code => d.code
    case Design => d.design
    case Manual => d.manual
  }

  predicate ValidDefaults(a: Agent, d: StrategyDefaults) {
    forall s: Strategy :: EntryFor(d, s).Some? && EntryFor(d, s).value.effort.Some? ==>
      Supports(a, EntryFor(d, s).value.effort.value)
  }

  predicate ValidTable(name: string, d: StrategyDefaults) {
    ParseAgent(name).Some? && ValidDefaults(ParseAgent(name).value, d)
  }

  predicate ValidTables(models: map<string, StrategyDefaults>) {
    forall name | name in models :: ValidTable(name, models[name])
  }

  function TopAgent(t: Toml): Option<Agent> {
    if t.agent.Some? then ParseAgent(t.agent.value) else Some(Claude)
  }

  function TopRuntime(t: Toml): Option<Runtime> {
    if t.runtime.Some? then ParseRuntime(t.runtime.value) else Some(Container)
  }

  function EntryRuntime(m: RawMode): Option<Runtime> {
    if m.runtime.Some? then ParseRuntime(m.runtime.value) else None
  }

  function EntryAgent(m: RawMode, fallback: Agent): Option<Agent> {
    if m.agent.Some? then ParseAgent(m.agent.value) else Some(fallback)
  }

  predicate ValidMode(m: RawMode, fallback: Agent) {
    && FromName(m.base).Some?
    && EntryAgent(m, fallback).Some?
    && (m.effort.Some? ==> Supports(EntryAgent(m, fallback).value, m.effort.value))
    && (m.runtime.Some? ==> EntryRuntime(m).Some?)
  }

  predicate ValidModes(modes: map<string, RawMode>, fallback: Agent) {
    forall name | name in modes :: ValidMode(modes[name], fallback)
  }

  predicate Accepted(t: Toml) {
    TopAgent(t).Some? && TopRuntime(t).Some? && ValidTables(t.models) && ValidModes(t.modes, TopAgent(t).value)
  }

  const AGENT_NAMES: seq<string> := ["claude", "codex", "agy"]
  const EFFORTS: seq<string> := ["low", "medium", "high", "xhigh", "max"]

  /** An effort a file may give to the agent of this name. */
  predicate EffortFits(agent: string, effort: Option<string>) {
    effort.Some? ==> effort.value in EFFORTS || (effort.value == "ultra" && agent != "claude")
  }

  predicate EntryFits(agent: string, e: Option<StrategyEntry>) {
    e.Some? ==> EffortFits(agent, e.value.effort)
  }

  predicate TableFits(name: string, d: StrategyDefaults) {
    name in AGENT_NAMES && EntryFits(name, d.code) && EntryFits(name, d.design) && EntryFits(name, d.manual)
  }

  predicate RuntimeFits(runtime: Option<string>) {
    runtime.Some? ==> runtime.value in ["container", "local"]
  }

  predicate ModeFits(m: RawMode, fallback: string) {
    && m.base in ["code", "design", "manual"]
    && (m.agent.Some? ==> m.agent.value in AGENT_NAMES)
    && EffortFits(if m.agent.Some? then m.agent.value else fallback, m.effort)
    && RuntimeFits(m.runtime)
  }

  /** What a file must say to be accepted, in its own words. */
  lemma AcceptedMeans(t: Toml)
    ensures var fallback := if t.agent.Some? then t.agent.value else "claude";
      Accepted(t) <==>
        && fallback in AGENT_NAMES && RuntimeFits(t.runtime)
        && (forall name | name in t.models :: TableFits(name, t.models[name]))
        && (forall name | name in t.modes :: ModeFits(t.modes[name], fallback))
  {
    forall name, d ensures ValidTable(name, d) <==> TableFits(name, d) { TableFitsIff(name, d); }
    var fallback := if t.agent.Some? then t.agent.value else "claude";
    if fallback in AGENT_NAMES {
      forall m ensures ValidMode(m, TopAgent(t).value) <==> ModeFits(m, fallback) { ModeFitsIff(m, fallback); }
    }
  }

  lemma AgentFits(name: string, effort: Option<string>)
    ensures ParseAgent(name).Some? <==> name in AGENT_NAMES
    ensures ParseAgent(name).Some? && effort.Some? ==>
      (Supports(ParseAgent(name).value, effort.value) <==> EffortFits(name, effort))
  {
  }

  lemma TableFitsIff(name: string, d: StrategyDefaults)
    ensures ValidTable(name, d) <==> TableFits(name, d)
  {
    AgentFits(name, None);
    if ParseAgent(name).Some? {
      forall s: Strategy ensures EntryFits(name, EntryFor(d, s)) <==>
        (EntryFor(d, s).Some? && EntryFor(d, s).value.effort.Some? ==>
           Supports(ParseAgent(name).value, EntryFor(d, s).value.effort.value))
      {
        if EntryFor(d, s).Some? { AgentFits(name, EntryFor(d, s).value.effort); }
      }
      assert EntryFor(d, Code) == d.code && EntryFor(d, Design) == d.design && EntryFor(d, Manual) == d.manual;
    }
  }

  lemma ModeFitsIff(m: RawMode, fallback: string)
    requires fallback in AGENT_NAMES
    ensures ParseAgent(fallback).Some? && (ValidMode(m, ParseAgent(fallback).value) <==> ModeFits(m, fallback))
  {
    AgentFits(fallback, m.effort);
    if m.agent.Some? { AgentFits(m.agent.value, m.effort); }
  }

  // ---- what an accepted file says ----

  function Table(models: map<string, StrategyDefaults>, a: Agent): Option<StrategyDefaults> {
    if AgentName(a) in models then Some(models[AgentName(a)]) else None
  }

  /** The configuration agrees with the file on `names` of its own modes, and with the built-in
      modes elsewhere. */
  ghost predicate Describes(c: Config, t: Toml, names: set<string>)
    requires names <= t.modes.Keys && TopAgent(t).Some? && ValidModesOn(t, names)
  {
    var top := TopAgent(t).value;
    && c.defaultAgent == top && Some(c.defaultRuntime) == TopRuntime(t)
    && c.modes.Keys == c.strategies.Keys == c.agents.Keys == BUILTIN + names
    && c.explicitModels.Keys <= names && c.explicitEfforts.Keys <= names && c.modeRuntimes.Keys <= names
    && (forall n | n in names :: DescribesMode(c, n, t.modes[n], top))
    && (forall n | n in BUILTIN - names :: DescribesBuiltin(c, n, top))
  }

  ghost predicate ValidModesOn(t: Toml, names: set<string>)
    requires names <= t.modes.Keys && TopAgent(t).Some?
  {
    forall n | n in names :: ValidMode(t.modes[n], TopAgent(t).value)
  }

  function Lookup<V>(m: map<string, V>, n: string): Option<V> {
    if n in m then Some(m[n]) else None
  }

  predicate DescribesMode(c: Config, n: string, m: RawMode, top: Agent)
    requires ValidMode(m, top)
  {
    && Lookup(c.modes, n) == Some(m.skills)
    && Lookup(c.strategies, n) == FromName(m.base)
    && Lookup(c.agents, n) == EntryAgent(m, top)
    && Lookup(c.explicitModels, n) == m.model
    && Lookup(c.explicitEfforts, n) == m.effort
    && Lookup(c.modeRuntimes, n) == EntryRuntime(m)
  }

  predicate DescribesBuiltin(c: Config, n: string, top: Agent) {
    && FromName(n).Some?
    && Lookup(c.modes, n) == Some(DefaultSkills(FromName(n).value))
    && Lookup(c.strategies, n) == FromName(n)
    && Lookup(c.agents, n) == Some(top)
    && Lookup(c.explicitModels, n) == None
    && Lookup(c.explicitEfforts, n) == None
    && Lookup(c.modeRuntimes, n) == None
  }

  ghost predicate DescribesTables(overrides: map<Agent, StrategyDefaults>, models: map<string, StrategyDefaults>) {
    forall a: Agent :: (if a in overrides then Some(overrides[a]) else None) == Table(models, a)
  }

  ghost predicate Parsed(c: Config, t: Toml)
    requires Accepted(t)
  {
    Describes(c, t, t.modes.Keys) && DescribesTables(c.overrides, t.models)
  }

  // ---- reading the file ----

  /** `from_toml`, after the TOML text has been parsed into typed entries. */
  method FromToml(t: Toml) returns (r: Option<Config>)
    ensures r.Some? <==> Accepted(t)
    ensures r.Some? ==> Parsed(r.value, t)
  {
    var top := TopAgent(t);
    var runtime := TopRuntime(t);
    if top.None? || runtime.None? { return None; }
    var overrides := ParseWorkerModels(t.models);
    if overrides.None? { return None; }
    SeededDescribes(t, overrides.value);
    r := ReadModes(t, top.value, Seeded(top.value, runtime.value, overrides.value));
  }

  /** The loop over the file's own modes. */
  method ReadModes(t: Toml, top: Agent, seeded: Config) returns (r: Option<Config>)
    requires TopAgent(t) == Some(top) && Describes(seeded, t, {})
    ensures r.Some? <==> ValidModes(t.modes, top)
    ensures r.Some? ==> Describes(r.value, t, t.modes.Keys) && r.value.overrides == seeded.overrides
  {
    var c, rest := seeded, t.modes.Keys;
    ghost var done: set<string> := {};
    while rest != {}
      invariant done !! rest && done + rest == t.modes.Keys
      invariant ValidModesOn(t, done) && Describes(c, t, done)
      invariant c.overrides == seeded.overrides
      decreases rest
    {
      var name :| name in rest;
      if !ValidMode(t.modes[name], top) { return None; }
      ModeAdded(c, t, done, name);
      c := WithMode(c, name, t.modes[name], top);
      rest, done := rest - {name}, done + {name};
    }
    assert done == t.modes.Keys;
    return Some(c);
  }

  method ParseWorkerModels(models: map<string, StrategyDefaults>) returns (r: Option<map<Agent, StrategyDefaults>>)
    ensures r.Some? <==> ValidTables(models)
    ensures r.Some? ==> DescribesTables(r.value, models)
  {
    var overrides: map<Agent, StrategyDefaults> := map[];
    var rest := models.Keys;
    while rest != {}
      invariant rest <= models.Keys
      invariant forall name | name in models.Keys - rest :: ValidTable(name, models[name])
      invariant forall a: Agent :: a in overrides <==> AgentName(a) in models.Keys - rest
      invariant forall a: Agent | a in overrides :: overrides[a] == models[AgentName(a)]
      decreases rest
    {
      var name :| name in rest;
      if !ValidTable(name, models[name]) { return None; }
      var agent := ParseAgent(name).value;
      assert AgentName(agent) == name;
      overrides := overrides[agent := models[name]];
      rest := rest - {name};
    }
    return Some(overrides);
  }

  /** The built-in modes, all on the default agent. */
  function Seeded(top: Agent, runtime: Runtime, overrides: map<Agent, StrategyDefaults>): Config {
    Config(map["code" := DefaultSkills(Code), "design" := DefaultSkills(Design), "manual" := DefaultSkills(Manual)],
           map["code" := Code, "design" := Design, "manual" := Manual], map[], map[],
           map["code" := top, "design" := top, "manual" := top], top, map[], runtime, overrides)
  }

  lemma SeededDescribes(t: Toml, overrides: map<Agent, StrategyDefaults>)
    requires TopAgent(t).Some? && TopRuntime(t).Some?
    ensures Describes(Seeded(TopAgent(t).value, TopRuntime(t).value, overrides), t, {})
  {
  }

  function WithMode(c: Config, name: string, m: RawMode, top: Agent): Config
    requires ValidMode(m, top)
  {
    c.(modes := c.modes[name := m.skills],
       strategies := c.strategies[name := FromName(m.base).value],
       agents := c.agents[name := EntryAgent(m, top).value],
       explicitModels := if m.model.Some? then c.explicitModels[name := m.model.value] else c.explicitModels,
       explicitEfforts := if m.effort.Some? then c.explicitEfforts[name := m.effort.value] else c.explicitEfforts,
       modeRuntimes := if m.runtime.Some? then c.modeRuntimes[name := EntryRuntime(m).value] else c.modeRuntimes)
  }

  /** The two configurations say the same about `n`. */
  predicate Alike(c: Config, d: Config, n: string) {
    && Lookup(c.modes, n) == Lookup(d.modes, n)
    && Lookup(c.strategies, n) == Lookup(d.strategies, n)
    && Lookup(c.agents, n) == Lookup(d.agents, n)
    && Lookup(c.explicitModels, n) == Lookup(d.explicitModels, n)
    && Lookup(c.explicitEfforts, n) == Lookup(d.explicitEfforts, n)
    && Lookup(c.modeRuntimes, n) == Lookup(d.modeRuntimes, n)
  }

  lemma OtherModesKept(c: Config, name: string, m: RawMode, top: Agent, n: string)
    requires ValidMode(m, top) && n != name
    ensures Alike(c, WithMode(c, name, m, top), n)
  {
  }

  lemma NewModeDescribed(c: Config, name: string, m: RawMode, top: Agent)
    requires ValidMode(m, top) && name !in c.explicitModels && name !in c.explicitEfforts && name !in c.modeRuntimes
    ensures DescribesMode(WithMode(c, name, m, top), name, m, top)
  {
  }

  lemma ModeAdded(c: Config, t: Toml, names: set<string>, name: string)
    requires TopAgent(t).Some? && names <= t.modes.Keys && ValidModesOn(t, names) && Describes(c, t, names)
    requires name in t.modes && name !in names && ValidMode(t.modes[name], TopAgent(t).value)
    ensures Describes(WithMode(c, name, t.modes[name], TopAgent(t).value), t, names + {name})
  {
    var top := TopAgent(t).value;
    var c' := WithMode(c, name, t.modes[name], top);
    NewModeDescribed(c, name, t.modes[name], top);
    forall n | n in names ensures DescribesMode(c', n, t.modes[n], top) {
      assert DescribesMode(c, n, t.modes[n], top);
      OtherModesKept(c, name, t.modes[name], top, n);
    }
    forall n | n in BUILTIN - (names + {name}) ensures DescribesBuiltin(c', n, top) {
      assert DescribesBuiltin(c, n, top);
      OtherModesKept(c, name, t.modes[name], top, n);
    }
  }

  // ---- resolving a mode ----

  function ModeName(mode: string): string {
    if mode == "" then "code" else mode
  }

  function OverrideFor(c: Config, a: Agent, s: Strategy): Option<StrategyEntry> {
    if a in c.overrides then EntryFor(c.overrides[a], s) else None
  }

  function EffectiveModel(c: Config, a: Agent, s: Strategy): string {
    var e := OverrideFor(c, a, s);
    if e.Some? && e.value.model.Some? then e.value.model.value else DefaultModel(a, s)
  }

  function EffectiveEffort(c: Config, a: Agent, s: Strategy): string {
    var e := OverrideFor(c, a, s);
    if e.Some? && e.value.effort.Some? then e.value.effort.value else DEFAULT_EFFORT
  }

  function ResolveMode(c: Config, mode: string, requested: Option<Agent>): Option<Resolved> {
    var n := ModeName(mode);
    if n !in c.strategies || n !in c.modes then None else
    var agent := if requested.Some? then requested.value else if n in c.agents then c.agents[n] else c.defaultAgent;
    var model := if n in c.explicitModels then c.explicitModels[n] else EffectiveModel(c, agent, c.strategies[n]);
    var effort := if n in c.explicitEfforts then c.explicitEfforts[n] else EffectiveEffort(c, agent, c.strategies[n]);
    Some(Resolved(c.strategies[n], c.modes[n], model, effort, agent))
  }

  function ResolveRuntime(c: Config, mode: string, requested: Option<Runtime>, project: Option<Runtime>): Runtime {
    var n := ModeName(mode);
    if requested.Some? then requested.value
    else if n in c.modeRuntimes then c.modeRuntimes[n]
    else if project.Some? then project.value
    else c.defaultRuntime
  }

  // ---- what a launch gets, in terms of the file ----

  /** A mode as the file defines it, or the built-in one of that name. */
  function ModeOf(t: Toml, n: string): Option<RawMode> {
    if n in t.modes then Some(t.modes[n])
    else if FromName(n).Some? then Some(RawMode(n, DefaultSkills(FromName(n).value), None, None, None, None))
    else None
  }

  function LaunchAgent(m: RawMode, top: Agent, requested: Option<Agent>): Option<Agent> {
    if requested.Some? then requested else EntryAgent(m, top)
  }

  /** The line of an agent's table that a base names. */
  function EntryNamed(d: StrategyDefaults, base: string): Option<StrategyEntry> {
    if base == "code" then d.code else if base == "design" then d.design else d.manual
  }

  function Prefer<T>(pin: Option<T>, table: Option<T>, otherwise: T): T {
    if pin.Some? then pin.value else if table.Some? then table.value else otherwise
  }

  /** The precedence the file promises: the mode's pin, the agent's own table, the agent's default. */
  function LaunchOf(m: RawMode, s: Strategy, a: Agent, table: Option<StrategyDefaults>): Resolved {
    var e := if table.Some? then EntryNamed(table.value, m.base) else None;
    Resolved(s, m.skills,
             Prefer(m.model, if e.Some? then e.value.model else None, DefaultModel(a, s)),
             Prefer(m.effort, if e.Some? then e.value.effort else None, DEFAULT_EFFORT), a)
  }

  lemma ModeOfDescribes(t: Toml, c: Config, n: string)
    requires Accepted(t) && Parsed(c, t)
    ensures ModeOf(t, n).Some? <==> n in BUILTIN + t.modes.Keys
    ensures ModeOf(t, n).Some? ==>
      ValidMode(ModeOf(t, n).value, TopAgent(t).value) && DescribesMode(c, n, ModeOf(t, n).value, TopAgent(t).value)
  {
    if n in t.modes {
      assert DescribesMode(c, n, t.modes[n], TopAgent(t).value);
    } else if n in BUILTIN {
      assert n in BUILTIN - t.modes.Keys;
      assert DescribesBuiltin(c, n, TopAgent(t).value);
    }
  }

  lemma DescribedModeResolves(c: Config, mode: string, m: RawMode, top: Agent, requested: Option<Agent>)
    requires ValidMode(m, top) && DescribesMode(c, ModeName(mode), m, top)
    ensures var s, a := FromName(m.base).value, LaunchAgent(m, top, requested).value;
      ResolveMode(c, mode, requested) == Some(Resolved(s, m.skills,
        if m.model.Some? then m.model.value else EffectiveModel(c, a, s),
        if m.effort.Some? then m.effort.value else EffectiveEffort(c, a, s), a))
  {
  }

  lemma EffectiveFollowsTable(c: Config, models: map<string, StrategyDefaults>, a: Agent, s: Strategy)
    requires DescribesTables(c.overrides, models)
    ensures var table := Table(models, a); forall base | FromName(base) == Some(s) ::
      OverrideFor(c, a, s) == if table.Some? then EntryNamed(table.value, base) else None
  {
  }

  /** Resolution fails exactly on names that are neither built in nor in the file, and otherwise
      gives what the file promises, whatever order its tables were read in. */
  lemma ResolutionFollowsFile(t: Toml, c: Config, mode: string, requested: Option<Agent>)
    requires Accepted(t) && Parsed(c, t)
    ensures var n := if mode == "" then "code" else mode;
      ResolveMode(c, mode, requested).Some? <==> n in t.modes || n in ["code", "design", "manual"]
    ensures ResolveMode(c, mode, requested).Some? ==>
      var n := if mode == "" then "code" else mode;
      && ModeOf(t, n).Some?
      && var m := ModeOf(t, n).value;
      var a := LaunchAgent(m, TopAgent(t).value, requested);
      && FromName(m.base).Some? && a.Some?
      && ResolveMode(c, mode, requested) == Some(LaunchOf(m, FromName(m.base).value, a.value, Table(t.models, a.value)))
  {
    var n, top := ModeName(mode), TopAgent(t).value;
    ModeOfDescribes(t, c, n);
    if ModeOf(t, n).Some? {
      var m := ModeOf(t, n).value;
      DescribedModeResolves(c, mode, m, top, requested);
      EffectiveFollowsTable(c, t.models, LaunchAgent(m, top, requested).value, FromName(m.base).value);
    } else {
      assert n !in c.modes;
    }
  }

  /** The names a file may use. */
  lemma NamesInFiles()
    ensures ParseAgent("claude") == Some(Claude) && ParseAgent("codex") == Some(Codex) && ParseAgent("agy") == Some(Agy)
    ensures ParseRuntime("container") == Some(Container) && ParseRuntime("local") == Some(Local)
    ensures FromName("code") == Some(Code) && FromName("design") == Some(Design) && FromName("manual") == Some(Manual)
    ensures forall e :: Supports(Claude, e) <==> e in ["low", "medium", "high", "xhigh", "max"]
    ensures forall e, a | a != Claude :: Supports(a, e) <==> Supports(Claude, e) || e == "ultra"
  {
  }

  /** What launches get from a file that says nothing: claude, medium effort, each agent's own model
      for each base, and the built-in skills. */
  lemma EmptyFileLaunches(c: Config, requested: Option<Agent>)
    requires Parsed(c, Toml(None, None, map[], map[]))
    ensures ResolveMode(c, "", requested) == ResolveMode(c, "code", requested)
    ensures forall mode | mode in ["code", "design", "manual"] ::
      && ResolveMode(c, mode, requested).Some?
      && var r := ResolveMode(c, mode, requested).value;
      && r.agent == (if requested.Some? then requested.value else Claude)
      && r.effort == "medium" && FromName(mode) == Some(r.strategy)
      && r.model == (match r.agent
                     case Claude => if mode == "code" then "sonnet" else "opus"
                     case Codex => if mode == "code" then "gpt-5.6-terra" else "gpt-5.6-sol"
                     case Agy => "gemini-3.8-flash")
      && r.skills == DefaultSkills(r.strategy)
  {
    var t := Toml(None, None, map[], map[]);
    forall mode | mode in ["code", "design", "manual"] ensures
      ResolveMode(c, mode, requested).Some? && ModeName(mode) == mode &&
      var r := ResolveMode(c, mode, requested).value;
      r == Resolved(FromName(mode).value, DefaultSkills(FromName(mode).value),
                    DefaultModel(r.agent, FromName(mode).value), "medium",
                    if requested.Some? then requested.value else Claude)
    {
      ResolutionFollowsFile(t, c, mode, requested);
    }
  }

  /** Every built-in list has the common skills; only coding lists implement, only designing ones
      design, and only manual workers dream. */
  lemma BuiltinSkills(s: Strategy)
    ensures Common() <= DefaultSkills(s) && Common()[0] == "green" && |Common()| == 9
    ensures "implement" in DefaultSkills(s)[9..] <==> s != Design
    ensures "design" in DefaultSkills(s)[9..] <==> s != Code
    ensures "brain:dream" in DefaultSkills(s)[9..] <==> s == Manual
  {
    var own := DefaultSkills(s)[9..];
    assert own == match s
    case Code => ["implement", "ship", "bacon", "systematic-debugging", "test-driven-development"]
    case Design => ["design", "dispatch"]
    case Manual => ["implement", "implement-agents", "ship", "bacon", "systematic-debugging",
      "test-driven-development", "design", "dispatch", "brain:dream", "brain:dream-init"];
  }

  /** The runtime of a launch in terms of the file: the request's, the mode's, the project's, the
      file's, and container at last. It never fails, on unknown modes either. */
  lemma RuntimeFollowsFile(t: Toml, c: Config, mode: string, requested: Option<Runtime>, project: Option<Runtime>)
    requires Accepted(t) && Parsed(c, t)
    ensures var m := ModeOf(t, if mode == "" then "code" else mode);
      ResolveRuntime(c, mode, requested, project) ==
      Prefer(requested, if m.Some? then EntryRuntime(m.value) else None, Prefer(project, TopRuntime(t), Container))
  {
    ModeOfDescribes(t, c, ModeName(mode));
    if ModeOf(t, ModeName(mode)).None? {
      assert ModeName(mode) !in c.modeRuntimes;
    }
  }

  /** Two files that differ only in the tables of agents the launch does not run resolve alike. */
  lemma OtherAgentsTablesDoNotMatter(t: Toml, u: Toml, c: Config, d: Config, mode: string, requested: Option<Agent>)
    requires Accepted(t) && Accepted(u) && Parsed(c, t) && Parsed(d, u)
    requires t.agent == u.agent && t.modes == u.modes
    requires forall m, a |
      ModeOf(t, ModeName(mode)) == Some(m) && LaunchAgent(m, TopAgent(t).value, requested) == Some(a) ::
      Table(t.models, a) == Table(u.models, a)
    ensures ResolveMode(c, mode, requested) == ResolveMode(d, mode, requested)
  {
    ResolutionFollowsFile(t, c, mode, requested);
    ResolutionFollowsFile(u, d, mode, requested);
    assert ModeOf(t, ModeName(mode)) == ModeOf(u, ModeName(mode));
  }

  lemma TableEffortsSupported(t: Toml, a: Agent, s: Strategy)
    requires Accepted(t) && Table(t.models, a).Some?
    ensures var e := EntryFor(Table(t.models, a).value, s);
      e.Some? && e.value.effort.Some? ==> Supports(a, e.value.effort.value)
  {
    assert ValidTable(AgentName(a), t.models[AgentName(a)]);
  }

  /** A mode's effort is checked against the mode's own agent when the file is read, but the launch
      may ask for another: the resolved effort is one its agent supports except exactly when claude
      is requested for a mode that pins "ultra". */
  lemma EffortSupportedUnlessUltraOnClaude(t: Toml, c: Config, mode: string, requested: Option<Agent>)
    requires Accepted(t) && Parsed(c, t) && ModeOf(t, ModeName(mode)).Some?
    ensures ResolveMode(c, mode, requested).Some?
    ensures var r := ResolveMode(c, mode, requested).value;
      Supports(r.agent, r.effort) <==>
        !(requested == Some(Claude) && ModeOf(t, ModeName(mode)).value.effort == Some("ultra"))
  {
    ResolutionFollowsFile(t, c, mode, requested);
    ModeOfDescribes(t, c, ModeName(mode));
    var m := ModeOf(t, ModeName(mode)).value;
    var s, a := FromName(m.base).value, LaunchAgent(m, TopAgent(t).value, requested).value;
    var table := Table(t.models, a);
    if table.Some? { TableEffortsSupported(t, a, s); }
  }

  function UltraFile(): (t: Toml)
    ensures Accepted(t)
  {
    Toml(None, None, map[], map["deep" := RawMode("code", [], None, Some("ultra"), Some("codex"), None)])
  }

  /** Such a file is accepted, and claude is launched with an effort it does not have. */
  lemma UltraReachesClaude(c: Config)
    requires Parsed(c, UltraFile())
    ensures ResolveMode(c, "deep", Some(Claude)).Some?
    ensures ResolveMode(c, "deep", Some(Claude)).value.effort == "ultra" && !Supports(Claude, "ultra")
  {
    assert "deep" in UltraFile().modes;
    ModeOfDescribes(UltraFile(), c, "deep");
  }
}
