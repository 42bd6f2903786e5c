/** What private and community voice chats share (crates/catalyrst-comms/src/voice_db.rs and voice_logic.rs). */
module VoiceTypes {

  datatype Status = Connected | ConnectionInterrupted | Disconnected | NotConnected

  /** Times to live in milliseconds, and how many rooms one sweep takes. */
  datatype Config = Config(interruptedTtl: int, initialTtl: int, noModeratorTtl: int, batch: nat)

  /** Why a participant left; every other reason is handled as a lost connection. */
  datatype Reason = ClientInitiated | DuplicateIdentity | RoomDeleted | OtherReason

  /** A row counts as present: connected, or not yet past its time to live. */
  predicate Present(status: Status, joinedAt: int, updatedAt: int, now: int, cfg: Config) {
    match status
    case Connected => true
    case ConnectionInterrupted => updatedAt > now - cfg.interruptedTtl
    case NotConnected => joinedAt > now - cfg.initialTtl
    case Disconnected => false
  }

  /** A connected row counts always, a lost or awaited one until its time to live is reached, one that left never. */
  lemma PresentUntil(status: Status, joinedAt: int, updatedAt: int, now: int, cfg: Config)
    ensures Present(status, joinedAt, updatedAt, now, cfg) <==>
            || status == Connected
            || (status == ConnectionInterrupted && now < updatedAt + cfg.interruptedTtl)
            || (status == NotConnected && now < joinedAt + cfg.initialTtl)
  {
  }
}
