/**
 * `FrontendChatServiceImpl`: which chat agent answers a request that mentions none.
 * The agent registry is a map from id to agent (the enabled agents
 * `chatAgentService.getAgent` can return), the `DEFAULT_CHAT_AGENT_PREF` preference is a
 * field, and the preference write and the warning are appended to an action log. The
 * superclass choice and the parsed mention are parameters.
 */
module FrontendChatService {
  import opened Wrappers

  /** A registered chat agent. */
  datatype Agent = Agent(id: string, name: string)

  datatype PreferenceScope = DefaultScope | UserScope | WorkspaceScope | FolderScope

  /** What `getConfiguredDefaultChatAgent` does besides answering. */
  datatype Action =
    | SetDefaultChatAgentPreference(value: string, scope: PreferenceScope)
    | Warn(message: string)

  /** The product default agent. */
  const MiniAtomsId: string := "MiniAtoms"

  /** The legacy default id that is migrated to `MiniAtoms`. */
  const LegacyCoderId: string := "Coder"

  /** `chatAgentService.getAgent(id)` */
  function Lookup(registry: map<string, Agent>, id: string): Option<Agent> {
    if id in registry then Some(registry[id]) else None
  }

  /** The preference names an id (a truthy string). */
  predicate IsConfigured(preference: Option<string>) {
    preference.Some? && preference.value != ""
  }

  /** The configured id names no available agent. */
  predicate IsUnresolved(registry: map<string, Agent>, preference: Option<string>) {
    IsConfigured(preference) && preference.value !in registry
  }

  function MissingAgentWarning(id: string): string {
    "The configured default chat agent with id '" + id + "' does not exist or is disabled."
  }

  /**
   * The agent `getConfiguredDefaultChatAgent` returns: the configured one when it
   * resolves, the `MiniAtoms` agent (if registered) otherwise.
   */
  function DefaultAgent(registry: map<string, Agent>, preference: Option<string>): (agent: Option<Agent>)
    ensures IsConfigured(preference) && preference.value in registry ==> agent == Some(registry[preference.value])
    ensures !(IsConfigured(preference) && preference.value in registry) ==> agent == Lookup(registry, MiniAtomsId)
  {
    var configured := if IsConfigured(preference) then Lookup(registry, preference.value) else None;
    if configured.Some? then configured else Lookup(registry, MiniAtomsId)
  }

  /**
   * The side effects of `getConfiguredDefaultChatAgent`: an unresolved `Coder` is
   * migrated by one user-scope write of `MiniAtoms`; any other unresolved id draws one
   * warning; a resolved, absent or empty id does nothing.
   */
  function MigrationActions(registry: map<string, Agent>, preference: Option<string>): (actions: seq<Action>)
    ensures |actions| <= 1
    ensures actions == [] <==> !IsUnresolved(registry, preference)
    ensures actions == [SetDefaultChatAgentPreference(MiniAtomsId, UserScope)] <==>
      IsUnresolved(registry, preference) && preference.value == LegacyCoderId
    ensures preference.Some? && actions == [Warn(MissingAgentWarning(preference.value))] <==>
      IsUnresolved(registry, preference) && preference.value != LegacyCoderId
  {
    if !IsUnresolved(registry, preference) then []
    else if preference.value == LegacyCoderId then [SetDefaultChatAgentPreference(MiniAtomsId, UserScope)]
    else [Warn(MissingAgentWarning(preference.value))]
  }

  class FrontendChatServiceImpl {
    /** The agents `chatAgentService` can hand out, by id. */
    var agents: map<string, Agent>
    /** The value of `DEFAULT_CHAT_AGENT_PREF`, if set. */
    var defaultChatAgentPreference: Option<string>
    /** The preference writes and warnings issued, oldest first. */
    var actions: seq<Action>

    constructor (agents: map<string, Agent>, preference: Option<string>)
      ensures this.agents == agents && defaultChatAgentPreference == preference && actions == []
    {
      this.agents := agents;
      defaultChatAgentPreference := preference;
      actions := [];
    }

    /** `getConfiguredDefaultChatAgent()` */
    method GetConfiguredDefaultChatAgent() returns (agent: Option<Agent>)
      modifies this
      ensures agent == DefaultAgent(agents, defaultChatAgentPreference)
      ensures actions == old(actions) + MigrationActions(agents, defaultChatAgentPreference)
      ensures agents == old(agents) && defaultChatAgentPreference == old(defaultChatAgentPreference)
    {
      var configuredId := defaultChatAgentPreference;
      var configured: Option<Agent> := None;
      if configuredId.Some? && configuredId.value != "" {
        configured := Lookup(agents, configuredId.value);
      }
      if configuredId.Some? && configuredId.value != "" && configured.None? {
        if configuredId.value == LegacyCoderId {
          actions := actions + [SetDefaultChatAgentPreference(MiniAtomsId, UserScope)];
        } else {
          actions := actions + [Warn(MissingAgentWarning(configuredId.value))];
        }
      }
      if configured.Some? {
        return configured;
      }
      agent := Lookup(agents, MiniAtomsId);
    }

    /**
     * `initialAgentSelection(parsedRequest)`, given what `getMentionedAgent` found and
     * what the superclass would choose.
     */
    method InitialAgentSelection(mentioned: Option<string>, superChoice: Option<Agent>) returns (agent: Option<Agent>)
      modifies this
      ensures mentioned.Some? ==> agent == superChoice && actions == old(actions)
      ensures mentioned.None? ==>
        var chosen := DefaultAgent(agents, defaultChatAgentPreference);
        && agent == (if chosen.Some? then chosen else superChoice)
        && actions == old(actions) + MigrationActions(agents, defaultChatAgentPreference)
      ensures agents == old(agents) && defaultChatAgentPreference == old(defaultChatAgentPreference)
    {
      var configured: Option<Agent> := None;
      if mentioned.None? {
        configured := GetConfiguredDefaultChatAgent();
      }
      if mentioned.None? && configured.Some? {
        return configured;
      }
      agent := superChoice;
    }
  }
}
