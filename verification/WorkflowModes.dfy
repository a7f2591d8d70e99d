/** How the assignments of a workflow work together; the policy engine and the orchestrator share it. */
module WorkflowModes {
  datatype Mode = Single | Sequential | Competitive | Consensus
}
