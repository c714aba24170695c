/** Reasons that carry an explicit human or coordinator override. */
module Reasons {
  predicate HasOverridePrefix(reason: string) {
    "human_override:" <= reason || "coordinator_override:" <= reason
  }
}
