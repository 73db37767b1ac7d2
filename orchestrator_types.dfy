/**
 * The records of the Mini Atoms pipeline: user intent, then AppSpec, then AppDesign,
 * then GeneratedCode, then the StoredApp history entry.
 */
module OrchestratorTypes {
  import opened Wrappers

  /** A history entry kept by the storage service (id, description, HTML, ISO creation time). */
  datatype StoredApp = StoredApp(id: string, description: string, html: string, createdAt: string)

  /** The "product manager" output: a title, a one-line summary and the feature bullets. */
  datatype AppSpec = AppSpec(title: string, summary: string, targetUser: Option<string>, features: seq<string>)

  /** The "architect" output: layout plus components, state and interactions. */
  datatype AppDesign = AppDesign(layout: string, components: seq<string>, stateModel: seq<string>, interactions: seq<string>)

  /** The "developer" output: one complete HTML document. */
  datatype GeneratedCode = GeneratedCode(html: string)

  /** Everything known about one project (one chat session). */
  datatype OrchestrationState = OrchestrationState(
    projectId: string,
    spec: Option<AppSpec>,
    design: Option<AppDesign>,
    code: Option<GeneratedCode>,
    lastStoredApp: Option<StoredApp>)
}
