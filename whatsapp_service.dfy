/**
 * WhatsAppService: the per-sender conversation state machine.
 *
 * The process-wide dictionary of conversation states is the field
 * `conversationStates` of class `WhatsAppService`; its handlers update the
 * entry of one sender in place. What one turn does is given by the functions
 * `VoiceNoteTurn`, `EmailProvidedTurn` and `IncomingTurn` (the reply, the
 * sender's new state and the external calls made, in order), and each method
 * is proved to do exactly that. The remote steps (media download,
 * transcription, enhancement, email) are oracles in `Environment`.
 */
module WhatsApp {
  import opened Interfaces
  import opened Models
  import opened EmailExtractor

  const EmailSubject: string := "New Message Delivered via WhatsApp Voice-to-Text"
  const SentReply: string := "Your voice note has been converted and sent as an email! \U{2709}\U{FE0F}"
  const AskForEmailReply: string :=
    "I couldn't find an email address in your message. Please reply with the email address where you'd like to send this message."
  const InvalidEmailReply: string := "That doesn't look like a valid email address. Please try again."
  const NoVoiceNoteReply: string := "Sorry, I couldn't find your voice note. Please send it again."
  const DefaultReply: string := "Please send a voice note to convert it to email, or type an email address if requested."

  /** The exception a turn ends with. */
  datatype ServiceError =
    | MissingSender          // `From` is null: the dictionary lookup throws
    | DownloadFailed
    | TranscriptionFailed
    | EnhanceFailed
    | SendFailed

  datatype HandleResult = Replied(text: string) | Threw(error: ServiceError)

  /** One handler call: the reply, the sender's state afterwards and the
      external calls made, in order. */
  datatype Turn = Turn(reply: HandleResult, state: ConversationState, calls: seq<ExternalCall>)

  /** Every state waits for an address only with a voice note on hold, and is
      filed under its own phone number. */
  ghost predicate AllPaired(states: map<string, ConversationState>) {
    forall p :: p in states ==> states[p].Paired() && states[p].phoneNumber == p
  }

  /** At most one email goes out in a turn, and it is the turn's last call. */
  predicate SendIsLast(calls: seq<ExternalCall>) {
    forall i :: 0 <= i < |calls| - 1 ==> !calls[i].SendEmail?
  }

  /** Enhance `text` and email it to `address`: the tail shared by both handlers. */
  function EnhanceAndSend(text: string, address: string, env: Environment): (r: (HandleResult, seq<ExternalCall>))
    ensures |r.1| >= 1 && r.1[0] == Enhance(text)
    ensures r.0 == Replied(SentReply) <==>
      env.enhance(text).Ok? && env.send(Email(address, EmailSubject, env.enhance(text).value))
    ensures r.0 != Replied(SentReply) ==> r.0.Threw?
    // the email goes to `address`, with the enhanced text as content, and is the last call
    ensures env.enhance(text).Ok? ==> r.1 == [Enhance(text), SendEmail(Email(address, EmailSubject, env.enhance(text).value))]
    ensures env.enhance(text).Fail? ==> r.1 == [Enhance(text)]
  {
    match env.enhance(text)
    case Fail => (Threw(EnhanceFailed), [Enhance(text)])
    case Ok(content) =>
      var email := Email(address, EmailSubject, content);
      (if env.send(email) then Replied(SentReply) else Threw(SendFailed), [Enhance(text), SendEmail(email)])
  }

  /** HandleVoiceNote: download, transcribe; an address spoken in the
      transcript gets the email at once, otherwise the note is put on hold. */
  function VoiceNoteTurn(mediaUrl: string, state: ConversationState, env: Environment): (t: Turn)
    ensures |t.calls| >= 1 && t.calls[0] == Download(mediaUrl)
    // the state changes only to put this note on hold, replacing any earlier one
    ensures t.state == state || t.state == state.(pendingVoiceNoteUrl := Some(mediaUrl), waitingForEmail := true)
    ensures t.state != state ==> t.reply == Replied(AskForEmailReply)
    ensures t.reply.Threw? ==> t.state == state
    ensures state.Paired() ==> t.state.Paired()
    ensures SendIsLast(t.calls)
    // a failed download or transcription ends the turn in an exception, with nothing changed
    ensures env.download(mediaUrl).Fail? ==> t == Turn(Threw(DownloadFailed), state, [Download(mediaUrl)])
    ensures env.download(mediaUrl).Ok? && env.transcribe(env.download(mediaUrl).value).Fail? ==>
      t == Turn(Threw(TranscriptionFailed), state, [Download(mediaUrl), Transcribe(env.download(mediaUrl).value)])
    // the only replies are the confirmation, the request for an address, or an exception
    ensures t.reply == Replied(SentReply) || t.reply == Replied(AskForEmailReply) || t.reply.Threw?
    // once the enhancement is reached, every outcome other than the confirmation is an exception
    ensures |t.calls| > 2 && t.reply != Replied(SentReply) ==> t.reply.Threw?
  {
    match env.download(mediaUrl)
    case Fail => Turn(Threw(DownloadFailed), state, [Download(mediaUrl)])
    case Ok(audio) =>
      match env.transcribe(audio)
      case Fail => Turn(Threw(TranscriptionFailed), state, [Download(mediaUrl), Transcribe(audio)])
      case Ok(transcription) =>
        match ExtractEmailAddress(transcription)
        case Some(address) =>
          var (reply, sent) := EnhanceAndSend(transcription, address, env);
          Turn(reply, state, [Download(mediaUrl), Transcribe(audio)] + sent)
        case None =>
          Turn(Replied(AskForEmailReply),
               state.(pendingVoiceNoteUrl := Some(mediaUrl), waitingForEmail := true),
               [Download(mediaUrl), Transcribe(audio)])
  }

  /** HandleEmailProvided: the body should hold an address; the note on hold
      is downloaded, transcribed, enhanced and emailed there, and only a
      successful send clears the hold. */
  function EmailProvidedTurn(emailText: string, state: ConversationState, env: Environment): (t: Turn)
    // rejections: no address, or no note on hold; nothing is called or changed
    ensures ExtractEmailAddress(emailText).None? ==> t == Turn(Replied(InvalidEmailReply), state, [])
    ensures ExtractEmailAddress(emailText).Some? && state.pendingVoiceNoteUrl.None? ==>
      t == Turn(Replied(NoVoiceNoteReply), state, [])
    // otherwise the note on hold is the one downloaded
    ensures ExtractEmailAddress(emailText).Some? && state.pendingVoiceNoteUrl.Some? ==>
      |t.calls| >= 1 && t.calls[0] == Download(state.pendingVoiceNoteUrl.value)
    // the state is cleared exactly when the email went out, and is left as it was otherwise
    ensures t.reply == Replied(SentReply) ==>
      t.state == state.(pendingVoiceNoteUrl := None, waitingForEmail := false)
    ensures t.reply != Replied(SentReply) ==> t.state == state
    ensures state.Paired() ==> t.state.Paired()
    ensures SendIsLast(t.calls)
    // once the note on hold is fetched, every failure on the way is an exception
    ensures t.calls != [] && t.reply != Replied(SentReply) ==> t.reply.Threw?
    ensures ExtractEmailAddress(emailText).Some? && state.pendingVoiceNoteUrl.Some? ==>
      var url := state.pendingVoiceNoteUrl.value;
      env.download(url).Fail? ==> t == Turn(Threw(DownloadFailed), state, [Download(url)])
    ensures ExtractEmailAddress(emailText).Some? && state.pendingVoiceNoteUrl.Some? ==>
      var url := state.pendingVoiceNoteUrl.value;
      env.download(url).Ok? && env.transcribe(env.download(url).value).Fail? ==>
        t == Turn(Threw(TranscriptionFailed), state, [Download(url), Transcribe(env.download(url).value)])
  {
    match ExtractEmailAddress(emailText)
    case None => Turn(Replied(InvalidEmailReply), state, [])
    case Some(address) =>
      match state.pendingVoiceNoteUrl
      case None => Turn(Replied(NoVoiceNoteReply), state, [])
      case Some(url) =>
        match env.download(url)
        case Fail => Turn(Threw(DownloadFailed), state, [Download(url)])
        case Ok(audio) =>
          match env.transcribe(audio)
          case Fail => Turn(Threw(TranscriptionFailed), state, [Download(url), Transcribe(audio)])
          case Ok(transcription) =>
            var (reply, sent) := EnhanceAndSend(transcription, address, env);
            var calls := [Download(url), Transcribe(audio)] + sent;
            if reply == Replied(SentReply) then
              Turn(reply, state.(pendingVoiceNoteUrl := None, waitingForEmail := false), calls)
            else
              Turn(reply, state, calls)
  }

  /** The sender's state, or a fresh one created at `now`. */
  function LoadState(states: map<string, ConversationState>, from: string, now: int): ConversationState {
    if from in states then states[from] else NewConversationState(now).(phoneNumber := from)
  }

  /** `!string.IsNullOrEmpty(message.Body)` */
  predicate HasBody(message: WhatsAppMessage) {
    message.body.Some? && message.body.value != ""
  }

  /** `message.NumMedia > 0 && message.MediaUrls.Any()` */
  predicate HasMedia(message: WhatsAppMessage) {
    message.numMedia > 0 && message.mediaUrls != map[]
  }

  /** The sender is waiting for an address and the message has a body. */
  predicate AnswersHold(states: map<string, ConversationState>, message: WhatsAppMessage, now: int) {
    message.from.Some? && LoadState(states, message.from.value, now).waitingForEmail && HasBody(message)
  }

  datatype Step = Step(reply: HandleResult, states: map<string, ConversationState>, calls: seq<ExternalCall>)

  /** HandleIncomingMessageAsync. `firstUrl` is the URL `MediaUrls.First()`
      yields, which the dictionary's enumeration order decides. */
  function IncomingTurn(states: map<string, ConversationState>, message: WhatsAppMessage, now: int,
                        env: Environment, firstUrl: string): (r: Step)
    ensures message.from.None? ==> r == Step(Threw(MissingSender), states, [])
    // only the sender's entry is added or changed
    ensures message.from.Some? ==>
      && r.states.Keys == states.Keys + {message.from.value}
      && forall p :: p in states && p != message.from.value ==> r.states[p] == states[p]
    // a first message creates a fresh state for its sender, created now
    ensures message.from.Some? && message.from.value !in states ==>
      r.states[message.from.value].phoneNumber == message.from.value
      && r.states[message.from.value].lastUpdated == now
    // the pairing invariant is kept, so "couldn't find your voice note" is never replied
    // routing 1: waiting for an address and a body present: the body is the
    // answer, even when media came along; only the note on hold is fetched
    ensures AnswersHold(states, message, now) ==>
      var state := LoadState(states, message.from.value, now);
      && (r.calls == [] || (state.pendingVoiceNoteUrl.Some? && r.calls[0] == Download(state.pendingVoiceNoteUrl.value)))
      && r.states[message.from.value].pendingVoiceNoteUrl in {state.pendingVoiceNoteUrl, None}
    ensures AnswersHold(states, message, now) ==>
      var from := message.from.value;
      var t := EmailProvidedTurn(message.body.value, LoadState(states, from, now), env);
      r == Step(t.reply, states[from := t.state], t.calls)
    // routing 2: otherwise media make a voice note of the first URL
    ensures message.from.Some? && !AnswersHold(states, message, now) && HasMedia(message) ==>
      && |r.calls| >= 1 && r.calls[0] == Download(firstUrl)
      && r.states[message.from.value].pendingVoiceNoteUrl in
           {LoadState(states, message.from.value, now).pendingVoiceNoteUrl, Some(firstUrl)}
    ensures message.from.Some? && !AnswersHold(states, message, now) && HasMedia(message) ==>
      var from := message.from.value;
      var t := VoiceNoteTurn(firstUrl, LoadState(states, from, now), env);
      r == Step(t.reply, states[from := t.state], t.calls)
    // routing 3: otherwise the instructions, with no call and no change beyond creation
    ensures message.from.Some? && !AnswersHold(states, message, now) && !HasMedia(message) ==>
      r == Step(Replied(DefaultReply), states[message.from.value := LoadState(states, message.from.value, now)], [])
    ensures AllPaired(states) ==> AllPaired(r.states)
    ensures AllPaired(states) ==> r.reply != Replied(NoVoiceNoteReply)
    ensures SendIsLast(r.calls)
  {
    match message.from
    case None => Step(Threw(MissingSender), states, [])
    case Some(from) =>
      var state := LoadState(states, from, now);
      if AnswersHold(states, message, now) then
        var t := EmailProvidedTurn(message.body.value, state, env);
        Step(t.reply, states[from := t.state], t.calls)
      else if HasMedia(message) then
        var t := VoiceNoteTurn(firstUrl, state, env);
        Step(t.reply, states[from := t.state], t.calls)
      else
        Step(Replied(DefaultReply), states[from := state], [])
  }

  /** One webhook delivery: the message, the time it is handled, what the
      remote services answer, and which URL `MediaUrls.First()` yields. */
  datatype Delivery = Delivery(message: WhatsAppMessage, now: int, env: Environment, firstUrl: string)

  /** The conversation states after handling `deliveries` one after another. */
  function Run(states: map<string, ConversationState>, deliveries: seq<Delivery>): map<string, ConversationState>
    decreases |deliveries|
  {
    if deliveries == [] then states
    else
      var d := deliveries[0];
      Run(IncomingTurn(states, d.message, d.now, d.env, d.firstUrl).states, deliveries[1..])
  }

  /** Whatever messages arrive, in whatever order, no sender is ever left
      waiting for an address without a voice note on hold, and senders are
      never forgotten. */
  lemma {:induction false} RunKeepsPairing(states: map<string, ConversationState>, deliveries: seq<Delivery>)
    requires AllPaired(states)
    ensures AllPaired(Run(states, deliveries))
    ensures states.Keys <= Run(states, deliveries).Keys
    decreases |deliveries|
  {
    if deliveries != [] {
      var d := deliveries[0];
      RunKeepsPairing(IncomingTurn(states, d.message, d.now, d.env, d.firstUrl).states, deliveries[1..]);
    }
  }

  /** An answer naming an address sends the note on hold to that address,
      with the enhanced transcript as content, as the turn's last call; the
      hold is cleared exactly when that send succeeds. */
  lemma AnswerDeliversToAddress(emailText: string, address: string, state: ConversationState, env: Environment)
    requires ExtractEmailAddress(emailText) == Some(address)
    requires state.pendingVoiceNoteUrl.Some?
    ensures var t := EmailProvidedTurn(emailText, state, env);
      var url := state.pendingVoiceNoteUrl.value;
      && t.calls[0] == Download(url)
      // after a successful download and transcription the transcript is enhanced, and
      // the enhanced text is sent to the extracted address whenever there is one
      && (env.download(url).Ok? && env.transcribe(env.download(url).value).Ok? ==>
            var text := env.transcribe(env.download(url).value).value;
            t.calls == [Download(url), Transcribe(env.download(url).value), Enhance(text)]
                       + (if env.enhance(text).Ok? then [SendEmail(Email(address, EmailSubject, env.enhance(text).value))] else []))
      && (t.reply == Replied(SentReply) <==>
            && env.download(url).Ok?
            && env.transcribe(env.download(url).value).Ok?
            && var text := env.transcribe(env.download(url).value).value;
               env.enhance(text).Ok?
               && t.calls == [Download(url), Transcribe(env.download(url).value), Enhance(text),
                              SendEmail(Email(address, EmailSubject, env.enhance(text).value))]
               && env.send(Email(address, EmailSubject, env.enhance(text).value)))
  {
  }

  /** A voice note whose transcript names an address is emailed there at once
      and leaves the sender's state as it was. */
  lemma SpokenAddressDelivers(mediaUrl: string, state: ConversationState, env: Environment)
    requires env.download(mediaUrl).Ok? && env.transcribe(env.download(mediaUrl).value).Ok?
    requires ExtractEmailAddress(env.transcribe(env.download(mediaUrl).value).value).Some?
    ensures var t := VoiceNoteTurn(mediaUrl, state, env);
      var text := env.transcribe(env.download(mediaUrl).value).value;
      var address := ExtractEmailAddress(text).value;
      && t.state == state
      && t.calls == [Download(mediaUrl), Transcribe(env.download(mediaUrl).value), Enhance(text)]
                    + (if env.enhance(text).Ok? then [SendEmail(Email(address, EmailSubject, env.enhance(text).value))] else [])
      && (env.enhance(text).Ok? ==>
            t.calls[|t.calls| - 1] == SendEmail(Email(address, EmailSubject, env.enhance(text).value)))
      && (t.reply != Replied(SentReply) ==> t.reply.Threw?)
      && (t.reply == Replied(SentReply) <==> env.enhance(text).Ok? && env.send(Email(address, EmailSubject, env.enhance(text).value)))
  {
  }

  /** A voice note whose transcript names no address is put on hold,
      replacing any note already on hold, and the sender is asked for an
      address. */
  lemma UnaddressedVoiceNoteIsHeld(mediaUrl: string, state: ConversationState, env: Environment)
    requires env.download(mediaUrl).Ok? && env.transcribe(env.download(mediaUrl).value).Ok?
    requires ExtractEmailAddress(env.transcribe(env.download(mediaUrl).value).value).None?
    ensures var t := VoiceNoteTurn(mediaUrl, state, env);
      && t.reply == Replied(AskForEmailReply)
      && t.state == state.(pendingVoiceNoteUrl := Some(mediaUrl), waitingForEmail := true)
      && t.calls == [Download(mediaUrl), Transcribe(env.download(mediaUrl).value)]
  {
  }

  /** A conversation: a first voice note whose transcript names no address is
      put on hold; a rejected answer changes nothing; an answer naming an
      address sends the note on hold there, and the hold is cleared only if
      that send succeeds. */
  lemma HoldRejectDeliver(from: string, url: string, now: int, env: Environment,
                          rejected: string, answer: string, address: string)
    requires env.download(url).Ok? && env.transcribe(env.download(url).value).Ok?
    requires ExtractEmailAddress(env.transcribe(env.download(url).value).value).None?
    requires rejected != "" && ExtractEmailAddress(rejected).None?
    requires ExtractEmailAddress(answer) == Some(address)
    ensures
      var voiceNote := NewWhatsAppMessage().(from := Some(from), numMedia := 1, mediaUrls := map["audio/ogg" := url]);
      var s1 := IncomingTurn(map[], voiceNote, now, env, url);
      var s2 := IncomingTurn(s1.states, NewWhatsAppMessage().(from := Some(from), body := Some(rejected)), now + 1, env, "");
      var s3 := IncomingTurn(s2.states, NewWhatsAppMessage().(from := Some(from), body := Some(answer)), now + 2, env, "");
      && s1.reply == Replied(AskForEmailReply)
      && s1.states[from].waitingForEmail && s1.states[from].pendingVoiceNoteUrl == Some(url)
      && s2.reply == Replied(InvalidEmailReply) && s2.states == s1.states && s2.calls == []
      && SendIsLast(s3.calls) && s3.calls[0] == Download(url)
      && (s3.reply == Replied(SentReply) ==>
            s3.calls[|s3.calls| - 1].SendEmail? && s3.calls[|s3.calls| - 1].email.to == address
            && !s3.states[from].waitingForEmail && s3.states[from].pendingVoiceNoteUrl.None?)
      && (s3.reply != Replied(SentReply) ==> s3.states == s1.states)
  {
    var voiceNote := NewWhatsAppMessage().(from := Some(from), numMedia := 1, mediaUrls := map["audio/ogg" := url]);
    var held := NewConversationState(now).(phoneNumber := from, pendingVoiceNoteUrl := Some(url), waitingForEmail := true);
    assert "audio/ogg" in voiceNote.mediaUrls;
    assert !AnswersHold(map[], voiceNote, now) && HasMedia(voiceNote);
    UnaddressedVoiceNoteIsHeld(url, NewConversationState(now).(phoneNumber := from), env);
    var s1 := IncomingTurn(map[], voiceNote, now, env, url);
    assert s1.states == map[from := held];
    AnswerDeliversToAddress(answer, address, held, env);
  }

  class WhatsAppService {
    var conversationStates: map<string, ConversationState>

    ghost predicate Valid()
      reads this
    {
      AllPaired(conversationStates)
    }

    /** The dictionary starts out empty. */
    constructor ()
      ensures Valid() && conversationStates == map[]
    {
      conversationStates := map[];
    }

    method HandleIncomingMessage(message: WhatsAppMessage, now: int, env: Environment)
      returns (reply: HandleResult, calls: seq<ExternalCall>, ghost firstUrl: string)
      requires Valid()
      modifies this
      ensures Valid()
      ensures HasMedia(message) ==> firstUrl in message.mediaUrls.Values
      ensures var r := IncomingTurn(old(conversationStates), message, now, env, firstUrl);
        reply == r.reply && calls == r.calls && conversationStates == r.states
    {
      firstUrl := "";
      if HasMedia(message) {
        // a turn that does not reach the voice-note branch leaves the choice open
        ghost var contentType :| contentType in message.mediaUrls;
        firstUrl := message.mediaUrls[contentType];
      }
      if message.from.None? {
        return Threw(MissingSender), [], firstUrl;
      }
      var from := message.from.value;
      if from !in conversationStates {
        var state := NewConversationState(now).(phoneNumber := from);
        conversationStates := conversationStates[from := state];
      }
      var state := conversationStates[from];

      // waiting for an email address
      if state.waitingForEmail && HasBody(message) {
        reply, calls := HandleEmailProvided(message.body.value, from, env);
        return;
      }

      // a voice note
      if HasMedia(message) {
        var contentType :| contentType in message.mediaUrls;
        var mediaUrl := message.mediaUrls[contentType];
        firstUrl := mediaUrl;
        assert firstUrl in message.mediaUrls.Values;
        reply, calls := HandleVoiceNote(mediaUrl, from, env);
        return;
      }

      return Replied(DefaultReply), [], firstUrl;
    }

    method HandleVoiceNote(mediaUrl: string, from: string, env: Environment)
      returns (reply: HandleResult, calls: seq<ExternalCall>)
      requires Valid() && from in conversationStates
      modifies this
      ensures Valid()
      ensures var t := VoiceNoteTurn(mediaUrl, old(conversationStates[from]), env);
        reply == t.reply && calls == t.calls && conversationStates == old(conversationStates)[from := t.state]
    {
      calls := [Download(mediaUrl)];
      var download := env.download(mediaUrl);
      if download.Fail? {
        return Threw(DownloadFailed), calls;
      }
      var voiceNote := download.value;

      calls := calls + [Transcribe(voiceNote)];
      var transcribed := env.transcribe(voiceNote);
      if transcribed.Fail? {
        return Threw(TranscriptionFailed), calls;
      }
      var transcription := transcribed.value;

      var emailAddress := ExtractEmailAddress(transcription);
      if emailAddress.Some? {
        calls := calls + [Enhance(transcription)];
        var enhanced := env.enhance(transcription);
        if enhanced.Fail? {
          return Threw(EnhanceFailed), calls;
        }
        var email := Email(emailAddress.value, EmailSubject, enhanced.value);
        calls := calls + [SendEmail(email)];
        if !env.send(email) {
          return Threw(SendFailed), calls;
        }
        return Replied(SentReply), calls;
      } else {
        // store the voice note URL and wait for an address
        var state := conversationStates[from];
        conversationStates := conversationStates[from := state.(pendingVoiceNoteUrl := Some(mediaUrl))];
        state := conversationStates[from];
        conversationStates := conversationStates[from := state.(waitingForEmail := true)];
        return Replied(AskForEmailReply), calls;
      }
    }

    method HandleEmailProvided(emailText: string, from: string, env: Environment)
      returns (reply: HandleResult, calls: seq<ExternalCall>)
      requires Valid() && from in conversationStates
      modifies this
      ensures Valid()
      ensures var t := EmailProvidedTurn(emailText, old(conversationStates[from]), env);
        reply == t.reply && calls == t.calls && conversationStates == old(conversationStates)[from := t.state]
    {
      calls := [];
      var emailAddress := ExtractEmailAddress(emailText);
      if emailAddress.None? {
        return Replied(InvalidEmailReply), calls;
      }
      var state := conversationStates[from];
      if state.pendingVoiceNoteUrl.None? {
        return Replied(NoVoiceNoteReply), calls;
      }

      // download and process the pending voice note
      var url := state.pendingVoiceNoteUrl.value;
      calls := calls + [Download(url)];
      var download := env.download(url);
      if download.Fail? {
        return Threw(DownloadFailed), calls;
      }
      calls := calls + [Transcribe(download.value)];
      var transcribed := env.transcribe(download.value);
      if transcribed.Fail? {
        return Threw(TranscriptionFailed), calls;
      }
      calls := calls + [Enhance(transcribed.value)];
      var enhanced := env.enhance(transcribed.value);
      if enhanced.Fail? {
        return Threw(EnhanceFailed), calls;
      }

      // send the email
      var email := Email(emailAddress.value, EmailSubject, enhanced.value);
      calls := calls + [SendEmail(email)];
      if !env.send(email) {
        return Threw(SendFailed), calls;
      }

      // reset the state
      conversationStates := conversationStates[from := state.(pendingVoiceNoteUrl := None)];
      state := conversationStates[from];
      conversationStates := conversationStates[from := state.(waitingForEmail := false)];
      return Replied(SentReply), calls;
    }
  }
}
