/**
 * The records of WhatsAppMessage.cs: one inbound webhook message and the
 * per-sender conversation state. Times are DateTime ticks (100 ns units).
 */
module Models {
  import opened Interfaces

  const TicksPerHour: int := 36_000_000_000

  /** Hours after which a conversation state counts as stale. */
  const StaleAfterHours: int := 24

  /** A nullable string field is an `Option<string>`; `MediaUrls` maps a media
      content type to its URL. */
  datatype WhatsAppMessage = WhatsAppMessage(
    messageSid: Option<string>,
    from: Option<string>,
    to: Option<string>,
    body: Option<string>,
    numMedia: int,
    mediaUrls: map<string, string>)

  /** `new WhatsAppMessage()`: every property at its default. */
  function NewWhatsAppMessage(): (m: WhatsAppMessage)
    ensures m.messageSid.None? && m.from.None? && m.to.None? && m.body.None?
    ensures m.numMedia == 0 && m.mediaUrls == map[]
  {
    WhatsAppMessage(None, None, None, None, 0, map[])
  }

  datatype ConversationState = ConversationState(
    phoneNumber: string,
    pendingVoiceNoteUrl: Option<string>,
    waitingForEmail: bool,
    lastUpdated: int)
  {
    /** `IsStale`, evaluated at time `now`. */
    predicate IsStale(now: int) {
      now - lastUpdated > StaleAfterHours * TicksPerHour
    }

    /** Waiting for an address only ever happens with a voice note on hold. */
    predicate Paired() {
      waitingForEmail ==> pendingVoiceNoteUrl.Some?
    }
  }

  /** `new ConversationState()` at time `now`. */
  function NewConversationState(now: int): (s: ConversationState)
    ensures s.phoneNumber == "" && s.pendingVoiceNoteUrl.None? && !s.waitingForEmail
    ensures s.lastUpdated == now
    ensures !s.IsStale(now) && s.Paired()
  {
    ConversationState("", None, false, now)
  }

  /** Exactly 24 hours after the last update a state is not yet stale; one
      tick later it is. */
  lemma StaleThreshold(s: ConversationState)
    ensures !s.IsStale(s.lastUpdated + StaleAfterHours * TicksPerHour)
    ensures s.IsStale(s.lastUpdated + StaleAfterHours * TicksPerHour + 1)
    ensures forall now :: s.IsStale(now) <==> now > s.lastUpdated + StaleAfterHours * TicksPerHour
  {
  }

  /** Once stale, a state stays stale as time goes on. */
  lemma StaleIsMonotonic(s: ConversationState, now: int, later: int)
    requires now <= later
    requires s.IsStale(now)
    ensures s.IsStale(later)
  {
  }
}
