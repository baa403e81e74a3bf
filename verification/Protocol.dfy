/** The messages of the serial link and the errors of its codec. */
module Protocol {
  import opened Common
  import opened Postcard

  /** The challenge a daemon picks each time it opens the port. */
  type Nonce = U64

  datatype DeviceMessage =
    | ShutdownRequested
    | Hello(firmwareVersion: Utf8, acknowledgedSession: Option<Nonce>)

  datatype ProtocolError =
    | EmptyFrame
    | FrameTooLong
    | Serialize
    | Deserialize
    | UnsupportedVersion(received: Byte)

  datatype Result<+T> = Ok(value: T) | Err(error: ProtocolError)

  datatype HealthLevel = Healthy | Warning | Critical
  {
    function Priority(): nat {
      match this
      case Healthy => 0
      case Warning => 1
      case Critical => 2
    }
  }

  datatype IncidentId = Rule(name: string) | HostOffline

  datatype Incident = Incident(id: IncidentId, level: HealthLevel, message: string)

  datatype DisplayPage =
    | Overview
    | Resources
    | Storage(filesystemsLeft: bool, filesystemIndices: seq<nat>, smartIndices: seq<nat>)
    | PowerNetwork(upsLeft: bool)
    | Guests(offset: nat, limit: nat)

  datatype DisplayView = DisplayView(title: string, page: DisplayPage)

  datatype DisplayConfig = DisplayConfig(
    shutdownHoldMs: nat, shutdownAnimationDelayMs: nat, filesystemLabels: seq<string>, pages: seq<DisplayView>)

  datatype HttpConfig = HttpConfig(enabled: bool, hostname: string, port: nat, pages: seq<DisplayView>)

  datatype NotificationPriority = Default | High | Urgent

  datatype NtfyConfig = NtfyConfig(
    enabled: bool, notifyWarning: bool, notifyCritical: bool, notifyRecovery: bool,
    warningPriority: NotificationPriority, criticalPriority: NotificationPriority,
    recoveryPriority: NotificationPriority, repeatCriticalSeconds: Option<nat>)

  datatype NetworkConfig = NetworkConfig(http: HttpConfig, ntfy: NtfyConfig)

  /** One measurement of the host; only what the link's logic looks at. */
  datatype HealthSnapshot = HealthSnapshot(guests: nat, incidents: seq<Incident>)

  datatype ShutdownPhase = PreparingGuests | StoppingGuests | GuestsStopped | PoweringOff

  datatype HostMessage =
    | ShutdownAccepted
    | Snapshot(snapshot: HealthSnapshot)
    | ShutdownProgress(phase: ShutdownPhase, guestsTotal: nat, guestsRemaining: nat)
    | ShutdownFailed(guestsRemaining: nat)
    | Display(display: DisplayConfig)
    | Challenge(daemonVersion: Utf8, session: Nonce)   // the daemon's Hello
    | Network(network: NetworkConfig)
}
