/** Session records, heartbeats and staleness. */
module Sessions {
  import opened Wrappers

  datatype ManagementMode = Managed | Unmanaged

  datatype SessionStatus = Active | IdleSession | Offline

  datatype Session = Session(
    agentId: string, workspaceId: string, sessionId: string, runtime: string, mode: ManagementMode,
    resumable: bool, status: SessionStatus, lastHeartbeatAt: int, updatedAt: int)

  const HOUR_MS := 3_600_000

  predicate IsSessionStale(session: Session, staleAfterHours: int, referenceTime: int) {
    referenceTime - session.lastHeartbeatAt > staleAfterHours * HOUR_MS
  }
}
