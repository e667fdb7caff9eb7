/**
 Versioned agents whose rosters pin versions of other agents
 (app/routers/agents.py, app/db/queries/agents.py).
 */
module AgentVersions {
  import opened Options

  type AgentId = nat

  // A roster entry as it is stored. `ThisAgent` is the request's "self" before
  // it is resolved.
  datatype Entry = ThisAgent | Pin(agent: AgentId, version: nat)

  datatype VersionInput = Latest | Numbered(number: int) | NotANumber

  datatype EntryInput = SelfInput | AgentInput(agent: AgentId, version: VersionInput) | MalformedEntry

  datatype RosterInput = Coordinator(entries: seq<EntryInput>) | MalformedRoster

  // One version: its settings (name, model, system, tools and so on, compared
  // as a whole) and, for a coordinator, its roster.
  datatype Config = Config(settings: string, roster: Option<seq<Entry>>)

  datatype Agent = Agent(active: nat, archived: bool)

  datatype Registry = Registry(agents: map<AgentId, Agent>, versions: map<(AgentId, nat), Config>, nextId: AgentId)

  datatype Error = NotFound | Conflict | Unprocessable

  datatype Outcome = Refused(error: Error) | Unchanged | Changed(registry: Registry)

  datatype Field<T> = Absent | Given(value: T)

  const MAX_ROSTER: nat := 20

  // -------------------------------------------------------------------- rosters

  // The version an entry pins, if the entry is acceptable.
  function PinnedVersion(reg: Registry, agent: AgentId, version: VersionInput): Option<nat> {
    if agent !in reg.agents || reg.agents[agent].archived || version.NotANumber? then None
    else
      var number := if version.Latest? then reg.agents[agent].active else version.number;
      if number < 1 || (agent, number) !in reg.versions || reg.versions[(agent, number)].roster.Some? then None
      else Some(number)
  }

  // What the entry reserves in the set of agents seen; a new agent has no identifier yet.
  function SeenKey(entry: EntryInput, self: Option<AgentId>): Option<AgentId> {
    if entry.AgentInput? then Some(entry.agent) else self
  }

  function StoredEntry(reg: Registry, entry: EntryInput): Option<Entry> {
    match entry
    case SelfInput => Some(ThisAgent)
    case AgentInput(agent, version) =>
      (match PinnedVersion(reg, agent, version)
       case Some(number) => Some(Pin(agent, number))
       case None => None)
    case MalformedEntry => None
  }

  // A list of entries is accepted when each one is, and no two name the same agent.
  ghost predicate EntriesAccepted(reg: Registry, entries: seq<EntryInput>, self: Option<AgentId>) {
    && (forall e | e in entries :: StoredEntry(reg, e).Some?)
    && (forall i, j | 0 <= i < j < |entries| :: SeenKey(entries[i], self) != SeenKey(entries[j], self))
    && (forall i, j | 0 <= i < j < |entries| :: !(entries[i].SelfInput? && entries[j].SelfInput?))
  }

  function Stored(reg: Registry, entries: seq<EntryInput>): (stored: seq<Entry>)
    requires forall e | e in entries :: StoredEntry(reg, e).Some?
    ensures |stored| == |entries|
  {
    seq(|entries|, i requires 0 <= i < |entries| => StoredEntry(reg, entries[i]).value)
  }

  // None is a refusal.
  ghost function NormalizeRoster(reg: Registry, input: RosterInput, self: Option<AgentId>): Option<seq<Entry>> {
    if input.MalformedRoster? || input.entries == [] || |input.entries| > MAX_ROSTER then None
    else if EntriesAccepted(reg, input.entries, self) then Some(Stored(reg, input.entries))
    else None
  }

  // One more entry is accepted when it can be stored and names no agent named before.
  lemma AcceptOneMore(reg: Registry, entries: seq<EntryInput>, i: nat, self: Option<AgentId>)
    requires i < |entries| && EntriesAccepted(reg, entries[..i], self)
    ensures EntriesAccepted(reg, entries[..i + 1], self) <==>
      && StoredEntry(reg, entries[i]).Some?
      && forall k | 0 <= k < i ::
           SeenKey(entries[k], self) != SeenKey(entries[i], self) && !(entries[k].SelfInput? && entries[i].SelfInput?)
    ensures EntriesAccepted(reg, entries[..i + 1], self) ==>
      Stored(reg, entries[..i + 1]) == Stored(reg, entries[..i]) + [StoredEntry(reg, entries[i]).value]
  {
    hide StoredEntry, SeenKey;
    var before, after := entries[..i], entries[..i + 1];
    assert after == before + [entries[i]];
    assert forall k | 0 <= k < i :: before[k] == entries[k] == after[k];
    assert after[i] == entries[i] && after[i] in after;
  }

  lemma PrefixIsAccepted(reg: Registry, entries: seq<EntryInput>, i: nat, self: Option<AgentId>)
    requires i <= |entries| && EntriesAccepted(reg, entries, self)
    ensures EntriesAccepted(reg, entries[..i], self)
  {
    hide StoredEntry, SeenKey;
    assert forall k | 0 <= k < i :: entries[..i][k] == entries[k];
  }

  // The loop over the entries, with the set of agents seen so far.
  method NormalizeMultiagentRoster(reg: Registry, input: RosterInput, self: Option<AgentId>)
    returns (roster: Option<seq<Entry>>)
    ensures roster == NormalizeRoster(reg, input, self)
  {
    hide StoredEntry, SeenKey, EntriesAccepted, Stored;
    if input.MalformedRoster? || input.entries == [] || |input.entries| > MAX_ROSTER {
      return None;
    }
    var entries := input.entries;
    var seen: set<Option<AgentId>> := {};
    var sawSelf := false;
    var normalized: seq<Entry> := [];
    NoEntries(reg, self);
    for i := 0 to |entries|
      invariant EntriesAccepted(reg, entries[..i], self)
      invariant forall e | e in entries[..i] :: StoredEntry(reg, e).Some?
      invariant normalized == Stored(reg, entries[..i])
      invariant sawSelf <==> exists k | 0 <= k < i :: entries[k].SelfInput?
      invariant forall key :: key in seen <==> exists k | 0 <= k < i :: key == SeenKey(entries[k], self)
    {
      AcceptOneMore(reg, entries, i, self);
      AcceptedCanBeStored(reg, entries[..i + 1], self);
      var entry := entries[i];
      var stored := StoredEntry(reg, entry);
      if stored.None? || (entry.SelfInput? && sawSelf) || SeenKey(entry, self) in seen {
        if EntriesAccepted(reg, entries, self) {
          PrefixIsAccepted(reg, entries, i + 1, self);
        }
        return None;
      }
      sawSelf := sawSelf || entry.SelfInput?;
      seen := seen + {SeenKey(entry, self)};
      normalized := normalized + [stored.value];
    }
    assert entries[..|entries|] == entries;
    roster := Some(normalized);
  }

  lemma NoEntries(reg: Registry, self: Option<AgentId>)
    ensures EntriesAccepted(reg, [], self) && Stored(reg, []) == []
  {
  }

  lemma AcceptedCanBeStored(reg: Registry, entries: seq<EntryInput>, self: Option<AgentId>)
    ensures EntriesAccepted(reg, entries, self) ==> forall e | e in entries :: StoredEntry(reg, e).Some?
  {
  }

  function Resolve(entries: seq<Entry>, agent: AgentId, version: nat): (resolved: seq<Entry>)
    ensures |resolved| == |entries|
  {
    seq(|entries|, i requires 0 <= i < |entries| =>
      if entries[i].ThisAgent? then Pin(agent, version) else entries[i])
  }

  function ResolveRoster(roster: Option<seq<Entry>>, agent: AgentId, version: nat): Option<seq<Entry>> {
    if roster.Some? then Some(Resolve(roster.value, agent, version)) else None
  }

  // ------------------------------------------------------------------- handlers

  ghost function CreateEffect(reg: Registry, settings: string, input: Option<RosterInput>): Outcome {
    var roster := if input.Some? then NormalizeRoster(reg, input.value, None) else None;
    if input.Some? && roster.None? then Refused(Unprocessable)
    else
      var id := reg.nextId;
      Changed(Registry(
        reg.agents[id := Agent(1, false)],
        reg.versions[(id, 1) := Config(settings, ResolveRoster(roster, id, 1))],
        id + 1))
  }

  // The roster an update asks for; the outer None is a refusal.
  ghost function RequestedRoster(reg: Registry, agent: AgentId, current: Option<seq<Entry>>, input: Field<Option<RosterInput>>)
    : Option<Option<seq<Entry>>>
  {
    match input
    case Absent => Some(current)
    case Given(None) => Some(None)
    case Given(Some(roster)) =>
      var normalized := NormalizeRoster(reg, roster, Some(agent));
      if normalized.Some? then Some(normalized) else None
  }

  ghost function UpdateEffect(
    reg: Registry, agent: AgentId, expected: int, settings: Field<string>, input: Field<Option<RosterInput>>): Outcome
  {
    if agent !in reg.agents then Refused(NotFound)
    else if reg.agents[agent].archived then Refused(Conflict)
    else
      var active := reg.agents[agent].active;
      if (agent, active) !in reg.versions then Refused(NotFound)
      else if expected != active then Refused(Conflict)
      else
        var current := reg.versions[(agent, active)];
        var roster := RequestedRoster(reg, agent, current.roster, input);
        if roster.None? then Refused(Unprocessable)
        else
          var next := Config(if settings.Given? then settings.value else current.settings, roster.value);
          if next == current then Unchanged
          else Changed(reg.(
                 agents := reg.agents[agent := Agent(active + 1, false)],
                 versions := reg.versions[(agent, active + 1) :=
                   next.(roster := ResolveRoster(next.roster, agent, active + 1))]))
  }

  ghost function ArchiveEffect(reg: Registry, agent: AgentId): Outcome {
    if agent !in reg.agents || (agent, reg.agents[agent].active) !in reg.versions then Refused(NotFound)
    else Changed(reg.(agents := reg.agents[agent := reg.agents[agent].(archived := true)]))
  }

  datatype Request =
    | Create(settings: string, input: Option<RosterInput>)
    | Update(agent: AgentId, expected: int, newSettings: Field<string>, newRoster: Field<Option<RosterInput>>)
    | Archive(agent: AgentId)

  ghost function Apply(reg: Registry, r: Request): Outcome {
    match r
    case Create(settings, input) => CreateEffect(reg, settings, input)
    case Update(agent, expected, settings, roster) => UpdateEffect(reg, agent, expected, settings, roster)
    case Archive(agent) => ArchiveEffect(reg, agent)
  }

  ghost function After(reg: Registry, outcome: Outcome): Registry {
    if outcome.Changed? then outcome.registry else reg
  }

  const EmptyRegistry := Registry(map[], map[], 0)

  ghost function Run(requests: seq<Request>): Registry {
    if requests == [] then EmptyRegistry
    else
      var before := Run(requests[..|requests| - 1]);
      After(before, Apply(before, requests[|requests| - 1]))
  }

  // ------------------------------------------------------------------- the rows

  class AgentRows {
    var agents: map<AgentId, Agent>
    var versions: map<(AgentId, nat), Config>
    var nextId: AgentId

    function View(): Registry
      reads this
    {
      Registry(agents, versions, nextId)
    }

    constructor ()
      ensures View() == EmptyRegistry
    {
      agents, versions, nextId := map[], map[], 0;
    }

    method CreateAgent(settings: string, input: Option<RosterInput>) returns (outcome: Outcome)
      modifies this
      ensures outcome == CreateEffect(old(View()), settings, input)
      ensures View() == After(old(View()), outcome)
    {
      var roster := None;
      if input.Some? {
        roster := NormalizeMultiagentRoster(View(), input.value, None);
        if roster.None? {
          return Refused(Unprocessable);
        }
      }
      var id := nextId;
      nextId := nextId + 1;
      agents := agents[id := Agent(1, false)];
      versions := versions[(id, 1) := Config(settings, roster)];
      if roster.Some? {
        versions := versions[(id, 1) := Config(settings, Some(Resolve(roster.value, id, 1)))];
      }
      assert versions == old(versions)[(id, 1) := Config(settings, ResolveRoster(roster, id, 1))];
      outcome := Changed(View());
    }

    method UpdateAgent(agent: AgentId, expected: int, settings: Field<string>, input: Field<Option<RosterInput>>)
      returns (outcome: Outcome)
      modifies this
      ensures outcome == UpdateEffect(old(View()), agent, expected, settings, input)
      ensures View() == After(old(View()), outcome)
    {
      if agent !in agents {
        return Refused(NotFound);
      }
      if agents[agent].archived {
        return Refused(Conflict);
      }
      var active := agents[agent].active;
      if (agent, active) !in versions {
        return Refused(NotFound);
      }
      if expected != active {
        return Refused(Conflict);
      }
      var current := versions[(agent, active)];
      var roster := current.roster;
      if input.Given? {
        roster := None;
        if input.value.Some? {
          roster := NormalizeMultiagentRoster(View(), input.value.value, Some(agent));
          if roster.None? {
            return Refused(Unprocessable);
          }
        }
      }
      var next := Config(if settings.Given? then settings.value else current.settings, roster);
      if next == current {
        return Unchanged;
      }
      agents := agents[agent := agents[agent].(active := active + 1)];
      versions := versions[(agent, active + 1) := next];
      if roster.Some? {
        versions := versions[(agent, active + 1) := next.(roster := Some(Resolve(roster.value, agent, active + 1)))];
      }
      assert versions == old(versions)[(agent, active + 1) := next.(roster := ResolveRoster(roster, agent, active + 1))];
      outcome := Changed(View());
    }
  }

  // ---------------------------------------------------------------- invariants

  // The versions of an agent are exactly 1..active.
  ghost predicate VersionsUnbroken(reg: Registry) {
    && (forall a | a in reg.agents :: 1 <= reg.agents[a].active)
    && (forall a: AgentId, v: nat :: (a, v) in reg.versions <==> a in reg.agents && 1 <= v <= reg.agents[a].active)
  }

  // A pin names an existing version, of the same agent and no later, or of an
  // agent that coordinates nobody.
  ghost predicate PinSound(reg: Registry, agent: AgentId, version: nat, e: Entry) {
    && e.Pin?
    && (e.agent, e.version) in reg.versions
    && (reg.versions[(e.agent, e.version)].roster.None? || e.agent == agent)
    && (e.agent == agent ==> e.version <= version)
  }

  function EntryAgent(e: Entry): Option<AgentId> {
    if e.Pin? then Some(e.agent) else None
  }

  ghost predicate RosterSound(reg: Registry, agent: AgentId, version: nat, roster: Option<seq<Entry>>) {
    roster.Some? ==>
      && (forall e | e in roster.value :: PinSound(reg, agent, version, e))
      && (forall i, j | 0 <= i < j < |roster.value| :: EntryAgent(roster.value[i]) != EntryAgent(roster.value[j]))
  }

  ghost predicate RostersSound(reg: Registry) {
    forall a, v | (a, v) in reg.versions :: RosterSound(reg, a, v, reg.versions[(a, v)].roster)
  }

  ghost predicate ConsecutiveDiffer(reg: Registry) {
    forall a, v | (a, v) in reg.versions && (a, v + 1) in reg.versions ::
      reg.versions[(a, v)] != reg.versions[(a, v + 1)]
  }

  ghost predicate Sound(reg: Registry) {
    && VersionsUnbroken(reg)
    && RostersSound(reg)
    && ConsecutiveDiffer(reg)
    && (forall a | a in reg.agents :: a < reg.nextId)
  }

  // An accepted roster, resolved for a version of `agent`, is sound once that version exists.
  lemma ResolvedIsSound(
    reg: Registry, reg': Registry, input: RosterInput, self: Option<AgentId>, agent: AgentId, version: nat)
    requires VersionsUnbroken(reg) && NormalizeRoster(reg, input, self).Some?
    requires forall key | key in reg.versions :: key in reg'.versions && reg'.versions[key] == reg.versions[key]
    requires (agent, version) in reg'.versions
    requires if agent in reg.agents then self == Some(agent) && version == reg.agents[agent].active + 1 else self == None
    ensures RosterSound(reg', agent, version, ResolveRoster(NormalizeRoster(reg, input, self), agent, version))
  {
    var entries := input.entries;
    var stored := Stored(reg, entries);
    var resolved := Resolve(stored, agent, version);
    forall i | 0 <= i < |entries|
      ensures PinSound(reg', agent, version, resolved[i]) || resolved[i] == Pin(agent, version)
      ensures resolved[i].Pin?
      ensures resolved[i].agent == if entries[i].AgentInput? then entries[i].agent else agent
    {
      assert entries[i] in entries;
    }
    if agent !in reg.agents {
      forall i | 0 <= i < |entries| && entries[i].AgentInput?
        ensures entries[i].agent != agent
      {
        assert entries[i] in entries;
      }
    }
    forall i, j | 0 <= i < j < |resolved|
      ensures EntryAgent(resolved[i]) != EntryAgent(resolved[j])
    {
      assert SeenKey(entries[i], self) != SeenKey(entries[j], self);
      assert entries[i] in entries && entries[j] in entries;
    }
  }

  // Versions are only ever added.
  ghost predicate Extends(reg: Registry, reg': Registry) {
    && (forall key | key in reg.versions :: key in reg'.versions && reg'.versions[key] == reg.versions[key])
    && (forall a | a in reg.agents :: a in reg'.agents && reg.agents[a].active <= reg'.agents[a].active)
  }

  lemma OldRostersStaySound(reg: Registry, reg': Registry)
    requires RostersSound(reg)
    requires forall key | key in reg.versions :: key in reg'.versions && reg'.versions[key] == reg.versions[key]
    ensures forall a, v | (a, v) in reg.versions :: RosterSound(reg', a, v, reg'.versions[(a, v)].roster)
  {
    forall a, v | (a, v) in reg.versions
      ensures RosterSound(reg', a, v, reg'.versions[(a, v)].roster)
    {
      assert RosterSound(reg, a, v, reg.versions[(a, v)].roster);
    }
  }

  lemma CreateKeepsSound(reg: Registry, settings: string, input: Option<RosterInput>)
    requires Sound(reg) && CreateEffect(reg, settings, input).Changed?
    ensures Sound(CreateEffect(reg, settings, input).registry)
    ensures Extends(reg, CreateEffect(reg, settings, input).registry)
  {
    hide NormalizeRoster, RosterSound;
    var reg' := CreateEffect(reg, settings, input).registry;
    var id := reg.nextId;
    OldRostersStaySound(reg, reg');
    if input.Some? {
      ResolvedIsSound(reg, reg', input.value, None, id, 1);
    } else {
      assert RosterSound(reg', id, 1, None) by {
        NoRosterIsSound(reg', id, 1);
      }
    }
  }

  lemma NoRosterIsSound(reg: Registry, agent: AgentId, version: nat)
    ensures RosterSound(reg, agent, version, None)
  {
  }

  // A roster with an unresolved self entry is never what an active version holds.
  lemma ResolvedDiffers(reg: Registry, agent: AgentId, roster: Option<seq<Entry>>)
    requires Sound(reg) && agent in reg.agents
    requires forall e | roster.Some? && e in roster.value :: e.ThisAgent? || e.Pin?
    ensures var active := reg.agents[agent].active;
      var current := reg.versions[(agent, active)].roster;
      ResolveRoster(roster, agent, active + 1) == current ==> roster == current
  {
    var active := reg.agents[agent].active;
    var current := reg.versions[(agent, active)].roster;
    assert RosterSound(reg, agent, active, current);
    if ResolveRoster(roster, agent, active + 1) == current && roster.Some? {
      forall i | 0 <= i < |roster.value|
        ensures roster.value[i] == current.value[i]
      {
        assert current.value[i] in current.value;
        assert PinSound(reg, agent, active, current.value[i]);
        assert Resolve(roster.value, agent, active + 1)[i] == current.value[i];
      }
      assert roster.value == current.value;
    }
  }

  // The roster an update asks for is sound for the next version, once resolved.
  lemma NextRosterIsSound(reg: Registry, reg': Registry, agent: AgentId, input: Field<Option<RosterInput>>)
    requires Sound(reg) && agent in reg.agents
    requires forall key | key in reg.versions :: key in reg'.versions && reg'.versions[key] == reg.versions[key]
    requires (agent, reg.agents[agent].active + 1) in reg'.versions
    requires var current := reg.versions[(agent, reg.agents[agent].active)].roster;
      RequestedRoster(reg, agent, current, input).Some?
    ensures var active := reg.agents[agent].active;
      var requested := RequestedRoster(reg, agent, reg.versions[(agent, active)].roster, input).value;
      RosterSound(reg', agent, active + 1, ResolveRoster(requested, agent, active + 1))
  {
    var active := reg.agents[agent].active;
    var current := reg.versions[(agent, active)].roster;
    match input
    case Given(Some(roster)) => ResolvedIsSound(reg, reg', roster, Some(agent), agent, active + 1);
    case Given(None) =>
    case Absent =>
      assert RosterSound(reg, agent, active, current);
      if current.Some? {
        forall e | e in current.value
          ensures PinSound(reg', agent, active + 1, e)
        {
          assert PinSound(reg, agent, active, e);
        }
        forall i | 0 <= i < |current.value|
          ensures Resolve(current.value, agent, active + 1)[i] == current.value[i]
        {
          assert PinSound(reg, agent, active, current.value[i]);
        }
        assert Resolve(current.value, agent, active + 1) == current.value;
      }
  }

  lemma UpdateKeepsSound(reg: Registry, r: Request)
    requires Sound(reg) && r.Update? && Apply(reg, r).Changed?
    ensures Sound(Apply(reg, r).registry)
    ensures Extends(reg, Apply(reg, r).registry)
  {
    hide NormalizeRoster, RosterSound;
    var reg' := Apply(reg, r).registry;
    var active := reg.agents[r.agent].active;
    var current := reg.versions[(r.agent, active)];
    OldRostersStaySound(reg, reg');
    NextRosterIsSound(reg, reg', r.agent, r.newRoster);
    var requested := RequestedRoster(reg, r.agent, current.roster, r.newRoster).value;
    ResolvedDiffers(reg, r.agent, requested);
    assert reg'.versions[(r.agent, active + 1)] != current;
  }

  lemma ArchiveKeepsSound(reg: Registry, agent: AgentId)
    requires Sound(reg) && ArchiveEffect(reg, agent).Changed?
    ensures Sound(ArchiveEffect(reg, agent).registry)
    ensures Extends(reg, ArchiveEffect(reg, agent).registry)
  {
    OldRostersStaySound(reg, ArchiveEffect(reg, agent).registry);
  }

  lemma ApplyKeepsSound(reg: Registry, r: Request)
    requires Sound(reg)
    ensures Sound(After(reg, Apply(reg, r))) && Extends(reg, After(reg, Apply(reg, r)))
  {
    if Apply(reg, r).Changed? {
      match r
      case Create(settings, input) => CreateKeepsSound(reg, settings, input);
      case Update(_, _, _, _) => UpdateKeepsSound(reg, r);
      case Archive(agent) => ArchiveKeepsSound(reg, agent);
    }
  }

  // In every run the versions of each agent are exactly 1..active, consecutive
  // ones differ, and every roster pins existing versions.
  lemma {:induction false} EveryRunIsSound(requests: seq<Request>)
    ensures Sound(Run(requests))
  {
    if requests != [] {
      EveryRunIsSound(requests[..|requests| - 1]);
      ApplyKeepsSound(Run(requests[..|requests| - 1]), requests[|requests| - 1]);
    }
  }

  // From any point of a run to its end, committed versions never change.
  lemma {:induction false} VersionsAreImmutable(requests: seq<Request>, n: nat)
    requires n <= |requests|
    ensures Extends(Run(requests[..n]), Run(requests))
  {
    if n == |requests| {
      assert requests[..n] == requests;
    } else {
      var before := requests[..|requests| - 1];
      assert before[..n] == requests[..n];
      VersionsAreImmutable(before, n);
      EveryRunIsSound(before);
      ApplyKeepsSound(Run(before), requests[|requests| - 1]);
    }
  }

  // Of two updates that quote the same version, only the first can take effect.
  lemma StaleUpdateIsRefused(reg: Registry, first: Request, second: Request)
    requires Sound(reg) && first.Update? && second.Update?
    requires first.agent == second.agent && first.expected == second.expected
    requires Apply(reg, first).Changed?
    ensures Apply(Apply(reg, first).registry, second) == Refused(Conflict)
  {
    UpdateKeepsSound(reg, first);
  }

  // --------------------------------------------------------------- references

  ghost predicate Refers(reg: Registry, a: (AgentId, nat), b: (AgentId, nat)) {
    && a in reg.versions
    && reg.versions[a].roster.Some?
    && Pin(b.0, b.1) in reg.versions[a].roster.value
  }

  ghost predicate IsPath(reg: Registry, path: seq<(AgentId, nat)>) {
    && |path| >= 1
    && forall i | 0 <= i < |path| - 1 :: Refers(reg, path[i], path[i + 1])
  }

  lemma ReferenceGoesDown(reg: Registry, a: (AgentId, nat), b: (AgentId, nat))
    requires Sound(reg) && Refers(reg, a, b) && reg.versions[b].roster.Some?
    ensures b.0 == a.0 && b.1 <= a.1
  {
    assert RosterSound(reg, a.0, a.1, reg.versions[(a.0, a.1)].roster);
    assert PinSound(reg, a.0, a.1, Pin(b.0, b.1));
  }

  lemma ReferenceExists(reg: Registry, a: (AgentId, nat), b: (AgentId, nat))
    requires Sound(reg) && Refers(reg, a, b)
    ensures b in reg.versions
  {
    assert RosterSound(reg, a.0, a.1, reg.versions[(a.0, a.1)].roster);
    assert PinSound(reg, a.0, a.1, Pin(b.0, b.1));
  }

  // References lead from existing versions to existing versions only.
  lemma {:induction false} PathStaysInside(requests: seq<Request>, path: seq<(AgentId, nat)>)
    requires IsPath(Run(requests), path) && path[0] in Run(requests).versions
    ensures forall i | 0 <= i < |path| :: path[i] in Run(requests).versions
  {
    if |path| > 1 {
      var before, last := path[..|path| - 1], path[|path| - 1];
      assert forall i | 0 <= i < |before| - 1 :: Refers(Run(requests), path[i], path[i + 1]);
      PathStaysInside(requests, before);
      EveryRunIsSound(requests);
      ReferenceExists(Run(requests), path[|path| - 2], last);
    }
  }

  // Along a path of coordinators the agent stays and the version does not grow.
  lemma {:induction false} PathGoesDown(reg: Registry, path: seq<(AgentId, nat)>)
    requires Sound(reg) && IsPath(reg, path)
    requires path[|path| - 1] in reg.versions && reg.versions[path[|path| - 1]].roster.Some?
    ensures forall i | 0 <= i < |path| :: path[|path| - 1].0 == path[i].0 && path[|path| - 1].1 <= path[i].1
  {
    if |path| > 1 {
      var before := path[..|path| - 1];
      assert Refers(reg, path[|path| - 2], path[|path| - 1]);
      PathGoesDown(reg, before);
      ReferenceGoesDown(reg, path[|path| - 2], path[|path| - 1]);
    }
  }

  // References are well founded but for a version that names itself: every
  // cycle consists of one version.
  lemma ReferencesAreAcyclic(reg: Registry, path: seq<(AgentId, nat)>)
    requires Sound(reg) && IsPath(reg, path) && |path| >= 2 && path[0] == path[|path| - 1]
    ensures forall i | 0 <= i < |path| :: path[i] == path[0]
  {
    assert Refers(reg, path[0], path[1]);
    PathGoesDown(reg, path);
    forall i | 0 <= i < |path|
      ensures path[i] == path[0]
    {
      if i < |path| - 1 {
        var front := path[..i + 1];
        assert Refers(reg, path[i], path[i + 1]);
        assert forall j | 0 <= j < |front| - 1 :: Refers(reg, front[j], front[j + 1]) by {
          forall j | 0 <= j < |front| - 1
            ensures Refers(reg, front[j], front[j + 1])
          {
            assert Refers(reg, path[j], path[j + 1]);
          }
        }
        PathGoesDown(reg, front);
        assert path[i].1 <= path[0].1 && path[0].1 <= path[i].1;
      }
    }
  }
}
