/** The phases of a BuildRun. */
module BuildRunPhase {
  /** Unset is the empty phase of a BuildRun that no controller has touched. */
  datatype Phase = Unset | Pending | Queued | Running | Succeeded | Failed | Cancelled

  predicate IsTerminal(phase: Phase) {
    phase.Succeeded? || phase.Failed? || phase.Cancelled?
  }
}
