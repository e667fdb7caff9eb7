/**
 What creating and updating an agent comes to: which rosters and updates are
 accepted, and that the new version holds what was sent.
 */
module AgentOutcomes {
  import opened Options
  import opened AgentVersions

  // ---------------------------------------------------------------------- rosters

  // The version an input asks for: the agent's active one unless it gives a number.
  ghost predicate AsksFor(reg: Registry, agent: AgentId, input: VersionInput, version: nat)
    requires agent in reg.agents
  {
    match input
    case Latest => version == reg.agents[agent].active
    case Numbered(number) => number == version
    case NotANumber => false
  }

  // An agent entry may stand: the agent is there and unarchived, and the version
  // asked for exists and coordinates nobody.
  ghost predicate MayPin(reg: Registry, agent: AgentId, input: VersionInput, version: nat) {
    && agent in reg.agents && !reg.agents[agent].archived
    && AsksFor(reg, agent, input, version)
    && version >= 1
    && (agent, version) in reg.versions && reg.versions[(agent, version)].roster.None?
  }

  ghost predicate MayStand(reg: Registry, entry: EntryInput) {
    match entry
    case SelfInput => true
    case AgentInput(agent, input) => exists version: nat :: MayPin(reg, agent, input, version)
    case MalformedEntry => false
  }

  lemma StoredEntryIff(reg: Registry, entry: EntryInput)
    ensures StoredEntry(reg, entry).Some? <==> MayStand(reg, entry)
    ensures entry.SelfInput? ==> StoredEntry(reg, entry) == Some(ThisAgent)
    ensures forall agent, input, version: nat | entry == AgentInput(agent, input) && MayPin(reg, agent, input, version) ::
              StoredEntry(reg, entry) == Some(Pin(agent, version))
  {
    if entry.AgentInput? && StoredEntry(reg, entry).Some? {
      assert MayPin(reg, entry.agent, entry.version, StoredEntry(reg, entry).value.version);
    }
  }

  // Two entries name one agent: the same identifier, both the agent itself, or one
  // of each for an agent that already has an identifier.
  predicate SameAgent(a: EntryInput, b: EntryInput, self: Option<AgentId>) {
    match (a, b)
    case (SelfInput, SelfInput) => true
    case (AgentInput(x, _), AgentInput(y, _)) => x == y
    case (SelfInput, AgentInput(y, _)) => self == Some(y)
    case (AgentInput(x, _), SelfInput) => self == Some(x)
    case _ => false
  }

  // A roster is accepted exactly when it lists 1 to 20 entries that may stand and
  // name no agent twice.
  lemma RosterIsAcceptedIff(reg: Registry, input: RosterInput, self: Option<AgentId>)
    ensures NormalizeRoster(reg, input, self).Some? <==>
      && input.Coordinator? && 1 <= |input.entries| <= 20
      && (forall k | 0 <= k < |input.entries| :: MayStand(reg, input.entries[k]))
      && (forall i, j | 0 <= i < j < |input.entries| :: !SameAgent(input.entries[i], input.entries[j], self))
  {
    hide StoredEntry, MayStand;
    if input.Coordinator? {
      forall e
        ensures StoredEntry(reg, e).Some? <==> MayStand(reg, e)
      {
        StoredEntryIff(reg, e);
      }
      var entries := input.entries;
      assert forall k | 0 <= k < |entries| :: entries[k] in entries;
      if forall k | 0 <= k < |entries| :: MayStand(reg, entries[k]) {
        forall i, j | 0 <= i < j < |entries|
          ensures SameAgent(entries[i], entries[j], self) <==>
            (SeenKey(entries[i], self) == SeenKey(entries[j], self) || (entries[i].SelfInput? && entries[j].SelfInput?))
        {
          NotMalformed(reg, entries[i]);
          NotMalformed(reg, entries[j]);
        }
      }
    }
  }

  lemma NotMalformed(reg: Registry, entry: EntryInput)
    requires MayStand(reg, entry)
    ensures !entry.MalformedEntry?
  {
  }

  // What version `version` of `agent` keeps of a roster input: each entry in its
  // place, the agent itself at that version, the others at the version asked for.
  ghost predicate KeepsRoster(reg: Registry, entries: seq<EntryInput>, roster: seq<Entry>, agent: AgentId, version: nat) {
    && |roster| == |entries|
    && forall k | 0 <= k < |entries| ::
         && (entries[k].SelfInput? ==> roster[k] == Pin(agent, version))
         && (entries[k].AgentInput? ==>
               && roster[k].Pin? && roster[k].agent == entries[k].agent
               && MayPin(reg, entries[k].agent, entries[k].version, roster[k].version))
  }

  lemma AcceptedRosterIsKept(reg: Registry, input: RosterInput, self: Option<AgentId>, agent: AgentId, version: nat)
    requires NormalizeRoster(reg, input, self).Some?
    ensures KeepsRoster(reg, input.entries, Resolve(NormalizeRoster(reg, input, self).value, agent, version), agent, version)
  {
    hide StoredEntry;
    var entries := input.entries;
    forall k | 0 <= k < |entries|
      ensures entries[k].SelfInput? ==> StoredEntry(reg, entries[k]) == Some(ThisAgent)
      ensures entries[k].AgentInput? ==>
        && StoredEntry(reg, entries[k]).Some? && StoredEntry(reg, entries[k]).value.Pin?
        && StoredEntry(reg, entries[k]).value.agent == entries[k].agent
        && MayPin(reg, entries[k].agent, entries[k].version, StoredEntry(reg, entries[k]).value.version)
    {
      assert entries[k] in entries;
      StoredEntryIff(reg, entries[k]);
      if entries[k].AgentInput? {
        var version: nat :| MayPin(reg, entries[k].agent, entries[k].version, version);
      }
    }
  }

  // -------------------------------------------------------------------- the requests

  // A creation is accepted exactly with an acceptable roster or none, and makes
  // version 1 of a new agent with the settings and roster sent.
  lemma CreateMakes(reg: Registry, settings: string, input: Option<RosterInput>)
    requires forall a | a in reg.agents :: a < reg.nextId
    ensures var outcome := CreateEffect(reg, settings, input);
      && (outcome.Changed? <==> (input.Some? ==> NormalizeRoster(reg, input.value, None).Some?))
      && (outcome.Changed? ==>
            var id, reg' := reg.nextId, outcome.registry;
            && id !in reg.agents
            && reg'.agents == reg.agents[id := Agent(1, false)]
            && (id, 1) in reg'.versions && reg'.versions == reg.versions[(id, 1) := reg'.versions[(id, 1)]]
            && reg'.versions[(id, 1)].settings == settings
            && (reg'.versions[(id, 1)].roster.Some? <==> input.Some?)
            && (input.Some? ==> KeepsRoster(reg, input.value.entries, reg'.versions[(id, 1)].roster.value, id, 1)))
  {
    hide NormalizeRoster, KeepsRoster;
    if input.Some? && NormalizeRoster(reg, input.value, None).Some? {
      AcceptedRosterIsKept(reg, input.value, None, reg.nextId, 1);
    }
  }

  // An update is refused exactly for an agent that is not there or archived, for
  // another version than the active one, and for a roster that is not acceptable.
  lemma UpdateIsRefusedIff(
    reg: Registry, agent: AgentId, expected: int, settings: Field<string>, input: Field<Option<RosterInput>>)
    requires VersionsUnbroken(reg)
    ensures UpdateEffect(reg, agent, expected, settings, input).Refused? <==>
      || agent !in reg.agents || reg.agents[agent].archived
      || expected != reg.agents[agent].active
      || (input.Given? && input.value.Some? && NormalizeRoster(reg, input.value.value, Some(agent)).None?)
  {
    hide NormalizeRoster;
    if agent in reg.agents {
      assert (agent, reg.agents[agent].active) in reg.versions;
    }
  }

  // An accepted update either leaves everything as it is, where settings and roster
  // are those of the active version, or makes the next version active, with the
  // settings sent or else kept, and the roster sent, kept or dropped.
  lemma UpdateMakes(
    reg: Registry, agent: AgentId, expected: int, settings: Field<string>, input: Field<Option<RosterInput>>)
    requires Sound(reg) && !UpdateEffect(reg, agent, expected, settings, input).Refused?
    ensures var outcome := UpdateEffect(reg, agent, expected, settings, input);
      && agent in reg.agents && (agent, expected) in reg.versions
      && (settings.Given? && settings.value != reg.versions[(agent, expected)].settings ==> outcome.Changed?)
      && (input == Given(None) && reg.versions[(agent, expected)].roster.Some? ==> outcome.Changed?)
      && (input.Given? && input.value.Some? && SelfInput in input.value.value.entries ==> outcome.Changed?)
      && (outcome.Unchanged? ==>
            && settings in {Absent, Given(reg.versions[(agent, expected)].settings)}
            && (input.Given? && input.value.Some? ==>
                  && reg.versions[(agent, expected)].roster.Some?
                  && KeepsRoster(reg, input.value.value.entries, reg.versions[(agent, expected)].roster.value, agent, expected)))
      && (settings.Absent? && input.Absent? ==> outcome.Unchanged?)
      && (outcome.Changed? ==>
            var reg' := outcome.registry;
            var was, next := reg.versions[(agent, expected)], expected + 1;
            && reg'.agents == reg.agents[agent := Agent(next, false)]
            && (agent, next) !in reg.versions && (agent, next) in reg'.versions
            && reg'.versions == reg.versions[(agent, next) := reg'.versions[(agent, next)]]
            && (var made := reg'.versions[(agent, next)];
                && made.settings == (if settings.Given? then settings.value else was.settings)
                && (input.Absent? ==> made.roster == was.roster)
                && (input == Given(None) ==> made.roster == None)
                && (input.Given? && input.value.Some? ==>
                      && made.roster.Some?
                      && KeepsRoster(reg, input.value.value.entries, made.roster.value, agent, next))))
  {
    hide KeepsRoster, NormalizeRoster, RosterSound, ConsecutiveDiffer;
    var active := reg.agents[agent].active;
    var was := reg.versions[(agent, active)];
    if input.Given? && input.value.Some? {
      AcceptedRosterIsKept(reg, input.value.value, Some(agent), agent, active + 1);
      SelfIsStored(reg, input.value.value, Some(agent));
      NoSelfStored(reg, agent, active);
      AcceptedRosterIsKept(reg, input.value.value, Some(agent), agent, active);
      KeptRosterResolves(reg, agent, active, active);
    }
    if input.Absent? {
      KeptRosterResolves(reg, agent, active, active + 1);
    }
  }

  // An accepted roster with a self entry stores it unresolved.
  lemma SelfIsStored(reg: Registry, input: RosterInput, self: Option<AgentId>)
    requires NormalizeRoster(reg, input, self).Some?
    ensures SelfInput in input.entries ==> ThisAgent in NormalizeRoster(reg, input, self).value
  {
    if SelfInput in input.entries {
      var k :| 0 <= k < |input.entries| && input.entries[k] == SelfInput;
      assert NormalizeRoster(reg, input, self).value[k] == ThisAgent;
    }
  }

  // A committed roster holds none.
  lemma NoSelfStored(reg: Registry, agent: AgentId, version: nat)
    requires RostersSound(reg) && (agent, version) in reg.versions
    ensures reg.versions[(agent, version)].roster.Some? ==> ThisAgent !in reg.versions[(agent, version)].roster.value
  {
    var roster := reg.versions[(agent, version)].roster;
    assert RosterSound(reg, agent, version, roster);
    assert roster.Some? ==> forall e | e in roster.value :: PinSound(reg, agent, version, e);
  }

  lemma KeptRosterResolves(reg: Registry, agent: AgentId, version: nat, next: nat)
    requires RostersSound(reg) && (agent, version) in reg.versions
    ensures var roster := reg.versions[(agent, version)].roster; ResolveRoster(roster, agent, next) == roster
  {
    var roster := reg.versions[(agent, version)].roster;
    NoSelfStored(reg, agent, version);
    if roster.Some? {
      forall i | 0 <= i < |roster.value|
        ensures Resolve(roster.value, agent, next)[i] == roster.value[i]
      {
        assert roster.value[i] in roster.value;
      }
      assert Resolve(roster.value, agent, next) == roster.value;
    }
  }

  // Archiving an agent marks it and touches nothing else.
  lemma ArchiveMarks(reg: Registry, agent: AgentId)
    requires VersionsUnbroken(reg)
    ensures ArchiveEffect(reg, agent) ==
      if agent in reg.agents
      then Changed(Registry(reg.agents[agent := Agent(reg.agents[agent].active, true)], reg.versions, reg.nextId))
      else Refused(NotFound)
  {
    if agent in reg.agents {
      assert (agent, reg.agents[agent].active) in reg.versions;
    }
  }
}
